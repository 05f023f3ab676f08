/**
 * The portfolio's two mappings as values: the holding ledger (symbol to number of
 * shares) and the target allocation (symbol to percentage, in the order the
 * allocation was given), with the validation rules of adding, selling and setting
 * an allocation, and the valuation of a ledger at a table of prices.
 *
 * Stocks are identified by their symbol; a price table maps each symbol to the
 * current price of its stock.
 */
module Ledger {
  import opened Wrappers

  /** The failures the portfolio operations raise (each a ValueError in the source). */
  datatype Error =
    | NegativePrice                          // a price update below zero
    | NonPositiveShares                      // adding or selling zero or fewer shares
    | StockNotHeld                           // selling a stock the portfolio does not hold
    | InsufficientShares                     // selling more shares than are held
    | AllocationNotFull                      // target percentages that do not sum to 100
    | AllocationStockNotHeld(symbol: string) // a target for a stock that is not held

  type Holdings = map<string, real>
  type PriceTable = map<string, real>
  type Allocation = seq<(string, real)>

  /** The number of shares held of `s`, zero when the ledger has no entry for it. */
  function Held(h: Holdings, s: string): real {
    if s in h then h[s] else 0.0
  }

  /** Every entry holds a positive number of shares. */
  predicate AllPositive(h: Holdings) {
    forall s :: s in h ==> h[s] > 0.0
  }

  /** No entry holds a negative number of shares. */
  predicate NonNegative(h: Holdings) {
    forall s :: s in h ==> h[s] >= 0.0
  }

  // ---------------------------------------------------------------------------
  // Adding and selling shares

  /** The ledger after adding `n` shares of `s`, or the reason it is refused. */
  function Added(h: Holdings, s: string, n: real): (r: Result<Holdings, Error>)
    ensures r.Failure? <==> n <= 0.0
    ensures r.Failure? ==> r.error == NonPositiveShares
    ensures r.Success? ==> s in r.value && r.value[s] == Held(h, s) + n
    ensures r.Success? ==> forall t :: t != s ==> (t in r.value <==> t in h) && Held(r.value, t) == Held(h, t)
    ensures r.Success? && AllPositive(h) ==> AllPositive(r.value)
    ensures r.Success? && NonNegative(h) ==> NonNegative(r.value)
  {
    if n <= 0.0 then Failure(NonPositiveShares)
    else if s in h then Success(h[s := h[s] + n])
    else Success(h[s := n])
  }

  /**
   * The ledger after selling `n` shares of `s`, or the first reason it is refused:
   * the stock is not held, the number is not positive, or it exceeds the holding.
   */
  function Sold(h: Holdings, s: string, n: real): (r: Result<Holdings, Error>)
    ensures r.Failure? <==> s !in h || n <= 0.0 || n > h[s]
    ensures s !in h ==> r == Failure(StockNotHeld)
    ensures s in h && n <= 0.0 ==> r == Failure(NonPositiveShares)
    ensures s in h && n > 0.0 && n > h[s] ==> r == Failure(InsufficientShares)
    ensures r.Success? ==> Held(r.value, s) == h[s] - n && (s in r.value <==> n < h[s])
    ensures r.Success? ==> forall t :: t != s ==> (t in r.value <==> t in h) && Held(r.value, t) == Held(h, t)
    ensures r.Success? && AllPositive(h) ==> AllPositive(r.value)
    ensures r.Success? && NonNegative(h) ==> NonNegative(r.value)
  {
    if s !in h then Failure(StockNotHeld)
    else if n <= 0.0 then Failure(NonPositiveShares)
    else if n > h[s] then Failure(InsufficientShares)
    else if h[s] - n == 0.0 then Success(h - {s})
    else Success(h[s := h[s] - n])
  }

  /** A ledger command as the menu issues it: add or sell some shares of a stock. */
  datatype LedgerOp = AddShares(symbol: string, shares: real) | SellShares(symbol: string, shares: real)

  /** One command: a refused command is reported and leaves the ledger as it was. */
  function Step(h: Holdings, op: LedgerOp): Holdings {
    var r := match op
      case AddShares(s, n) => Added(h, s, n)
      case SellShares(s, n) => Sold(h, s, n);
    if r.Success? then r.value else h
  }

  /** A sequence of commands, applied in order. */
  function Replay(h: Holdings, ops: seq<LedgerOp>): Holdings
    decreases |ops|
  {
    if ops == [] then h else Replay(Step(h, ops[0]), ops[1..])
  }

  /** No sequence of adds and sells can leave an entry with zero or fewer shares. */
  lemma {:induction false} ReplayKeepsPositive(h: Holdings, ops: seq<LedgerOp>)
    requires AllPositive(h)
    ensures AllPositive(Replay(h, ops))
    decreases |ops|
  {
    if ops != [] {
      ReplayKeepsPositive(Step(h, ops[0]), ops[1..]);
    }
  }

  // ---------------------------------------------------------------------------
  // Target allocation

  /** The symbols an allocation names. */
  function Symbols(a: Allocation): set<string> {
    set i | 0 <= i < |a| :: a[i].0
  }

  /** No symbol appears twice (the allocation comes from a dictionary). */
  predicate DistinctSymbols(a: Allocation) {
    forall i, j :: 0 <= i < j < |a| ==> a[i].0 != a[j].0
  }

  /** The sum of the target percentages. */
  function PctSum(a: Allocation): real
    decreases |a|
  {
    if a == [] then 0.0 else a[0].1 + PctSum(a[1..])
  }

  /** The first symbol of the allocation, in its order, that the ledger does not hold. */
  function FirstUnheld(a: Allocation, h: Holdings): (r: Option<string>)
    ensures r.None? <==> forall i :: 0 <= i < |a| ==> a[i].0 in h
    ensures r.Some? ==> (r.value !in h &&
      exists i :: 0 <= i < |a| && a[i].0 == r.value && forall j :: 0 <= j < i ==> a[j].0 in h)
    decreases |a|
  {
    if a == [] then None
    else if a[0].0 !in h then Some(a[0].0)
    else
      var r := FirstUnheld(a[1..], h);
      assert r.Some? ==> exists i :: 0 <= i < |a| && a[i].0 == r.value && forall j :: 0 <= j < i ==> a[j].0 in h by {
        if r.Some? {
          var i :| 0 <= i < |a[1..]| && a[1..][i].0 == r.value && forall j :: 0 <= j < i ==> a[1..][j].0 in h;
          assert a[i + 1].0 == r.value;
          assert forall j :: 0 <= j < i + 1 ==> a[j].0 in h by {
            forall j | 0 <= j < i + 1 ensures a[j].0 in h {
              if j > 0 { assert a[j] == a[1..][j - 1]; }
            }
          }
        }
      }
      r
  }

  /**
   * The length of the allocation's longest prefix whose stocks are all held: the
   * position of the first unheld stock, or the whole length when there is none.
   */
  function HeldPrefix(a: Allocation, h: Holdings): (k: nat)
    ensures k <= |a|
    ensures forall j :: 0 <= j < k ==> a[j].0 in h
    ensures k < |a| ==> a[k].0 !in h
    ensures FirstUnheld(a, h) == if k < |a| then Some(a[k].0) else None
    decreases |a|
  {
    if a == [] || a[0].0 !in h then 0
    else
      var k := HeldPrefix(a[1..], h);
      assert forall j :: 0 < j <= k ==> a[j] == a[1..][j - 1];
      1 + k
  }

  /**
   * Whether `a` may become the allocation of a portfolio holding `h`: the
   * percentages must sum to exactly 100, and then every named stock must be held.
   */
  function AllocationCheck(a: Allocation, h: Holdings): (r: Outcome<Error>)
    ensures r.Pass? <==> PctSum(a) == 100.0 && forall i :: 0 <= i < |a| ==> a[i].0 in h
    ensures r == Fail(AllocationNotFull) <==> PctSum(a) != 100.0
    ensures r.Fail? && r.error.AllocationStockNotHeld? ==>
      PctSum(a) == 100.0 && r.error.symbol !in h &&
      exists i :: 0 <= i < |a| && a[i].0 == r.error.symbol && forall j :: 0 <= j < i ==> a[j].0 in h
    ensures PctSum(a) == 100.0 && FirstUnheld(a, h).Some? ==> r == Fail(AllocationStockNotHeld(FirstUnheld(a, h).value))
  {
    if PctSum(a) != 100.0 then Fail(AllocationNotFull)
    else match FirstUnheld(a, h)
      case None => Pass
      case Some(s) => Fail(AllocationStockNotHeld(s))
  }

  /** The allocation as a mapping from symbol to percentage; a later entry wins. */
  function AllocationView(a: Allocation): (m: map<string, real>)
    ensures m.Keys == Symbols(a)
    ensures DistinctSymbols(a) ==> forall i :: 0 <= i < |a| ==> m[a[i].0] == a[i].1
    decreases |a|
  {
    if a == [] then map[]
    else
      var init := a[..|a| - 1];
      var last := a[|a| - 1];
      var m := AllocationView(init);
      SymbolsSnoc(a);
      assert DistinctSymbols(a) ==> forall i :: 0 <= i < |a| ==> m[last.0 := last.1][a[i].0] == a[i].1 by {
        if DistinctSymbols(a) {
          forall i | 0 <= i < |a| ensures m[last.0 := last.1][a[i].0] == a[i].1 {
            if i < |a| - 1 {
              assert init[i] == a[i];
              assert a[i].0 != last.0;
            }
          }
        }
      }
      m[last.0 := last.1]
  }

  /** The symbols of an allocation are those of all but its last entry, and the last one's. */
  lemma SymbolsSnoc(a: Allocation)
    requires a != []
    ensures Symbols(a) == Symbols(a[..|a| - 1]) + {a[|a| - 1].0}
    ensures DistinctSymbols(a) ==> DistinctSymbols(a[..|a| - 1])
  {
    var init := a[..|a| - 1];
    forall s | s in Symbols(a) ensures s in Symbols(init) + {a[|a| - 1].0} {
      var i :| 0 <= i < |a| && a[i].0 == s;
      if i < |a| - 1 { assert init[i] == a[i]; }
    }
    forall s | s in Symbols(init) ensures s in Symbols(a) {
      var i :| 0 <= i < |init| && init[i].0 == s;
      assert a[i] == init[i];
    }
  }

  // ---------------------------------------------------------------------------
  // Valuation

  /** The value of `shares` shares at `price` each. */
  function ValueOf(price: real, shares: real): real {
    price * shares
  }

  /** Some held symbol. */
  ghost function Pick(h: Holdings): (s: string)
    requires h != map[]
    ensures s in h
  {
    var s :| s in h; s
  }

  /** The sum over all holdings of price times shares. */
  ghost function SumValue(h: Holdings, prices: PriceTable): real
    requires h.Keys <= prices.Keys
    decreases |h|
  {
    if h == map[] then 0.0
    else
      var s := Pick(h);
      assert |h - {s}| < |h| by { assert (h - {s}).Keys == h.Keys - {s}; }
      ValueOf(prices[s], h[s]) + SumValue(h - {s}, prices)
  }

  /** The sum does not depend on the order holdings are visited in: any one can be taken first. */
  lemma {:induction false} SumValueRemove(h: Holdings, prices: PriceTable, s: string)
    requires h.Keys <= prices.Keys
    requires s in h
    ensures SumValue(h, prices) == ValueOf(prices[s], h[s]) + SumValue(h - {s}, prices)
    decreases |h|
  {
    var t := Pick(h);
    if t != s {
      assert (h - {t}).Keys == h.Keys - {t};
      assert (h - {s}).Keys == h.Keys - {s};
      SumValueRemove(h - {t}, prices, s);
      SumValueRemove(h - {s}, prices, t);
      assert h - {t} - {s} == h - {s} - {t};
    }
  }

  /** With no negative price and no negative holding, the value is not negative. */
  lemma {:induction false} SumValueNonNegative(h: Holdings, prices: PriceTable)
    requires h.Keys <= prices.Keys
    requires NonNegative(h)
    requires forall s :: s in h ==> prices[s] >= 0.0
    ensures SumValue(h, prices) >= 0.0
    decreases |h|
  {
    if h != map[] {
      var s := Pick(h);
      assert (h - {s}).Keys == h.Keys - {s};
      SumValueNonNegative(h - {s}, prices);
      assert prices[s] * h[s] >= 0.0;
    }
  }

  /** Setting the holding of `s` to `q` values `s` at its price times `q`, the rest as before. */
  lemma SumValueUpdate(h: Holdings, prices: PriceTable, s: string, q: real)
    requires h.Keys <= prices.Keys && s in prices
    ensures h[s := q].Keys <= prices.Keys
    ensures SumValue(h[s := q], prices) == ValueOf(prices[s], q) + SumValue(h - {s}, prices)
  {
    assert h[s := q] - {s} == h - {s};
    SumValueRemove(h[s := q], prices, s);
  }

  /** Adding `n` shares of `s` raises the value by the price of `s` times `n`. */
  lemma TotalAfterAdd(h: Holdings, prices: PriceTable, s: string, n: real)
    requires h.Keys <= prices.Keys && s in prices
    requires Added(h, s, n).Success?
    ensures Added(h, s, n).value.Keys <= prices.Keys
    ensures SumValue(Added(h, s, n).value, prices) == SumValue(h, prices) + ValueOf(prices[s], n)
  {
    assert Added(h, s, n).value == h[s := Held(h, s) + n];
    SumValueRaise(h, prices, s, n);
  }

  /** Raising the holding of `s` by `n` (from zero when absent) raises the value by its price times `n`. */
  lemma SumValueRaise(h: Holdings, prices: PriceTable, s: string, n: real)
    requires h.Keys <= prices.Keys && s in prices
    ensures h[s := Held(h, s) + n].Keys <= prices.Keys
    ensures SumValue(h[s := Held(h, s) + n], prices) == SumValue(h, prices) + ValueOf(prices[s], n)
  {
    SumValueUpdate(h, prices, s, Held(h, s) + n);
    if s in h {
      SumValueRemove(h, prices, s);
      Distribute(prices[s], h[s], n);
    } else {
      assert h - {s} == h;
    }
  }

  /** Selling `n` shares of `s` lowers the value by the price of `s` times `n`. */
  lemma TotalAfterSell(h: Holdings, prices: PriceTable, s: string, n: real)
    requires h.Keys <= prices.Keys
    requires Sold(h, s, n).Success?
    ensures Sold(h, s, n).value.Keys <= prices.Keys
    ensures SumValue(Sold(h, s, n).value, prices) == SumValue(h, prices) - ValueOf(prices[s], n)
  {
    if n < h[s] {
      assert Sold(h, s, n).value == h[s := h[s] - n];
      SumValueUpdate(h, prices, s, h[s] - n);
      SumValueRemove(h, prices, s);
      assert (h[s] - n) + n == h[s];
      Distribute(prices[s], h[s] - n, n);
    } else {
      assert Sold(h, s, n).value == h - {s};
      SumValueRemove(h, prices, s);
    }
  }

  /** Value is additive in the number of shares; kept apart so that the lemmas above stay linear. */
  lemma Distribute(p: real, a: real, n: real)
    ensures ValueOf(p, a + n) == ValueOf(p, a) + ValueOf(p, n)
  {
  }
}
