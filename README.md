# Portfolio tracker: ledger and rebalancing model

This project models the in-memory core of a command-line portfolio tracker:

- A **stock** has a symbol and a price that can be updated, but never to a negative value.
- A **portfolio** keeps two things:
  - a ledger mapping each stock to the number of shares held, which adds and sells update in place under validation;
  - a target allocation mapping each stock to a percentage, which is replaced wholesale when it sums to exactly 100 and names only held stocks.
- The **rebalance engine** values the portfolio and lists the trades that close every gap between target value and current value larger than a threshold. On confirmation it applies them, clamping each new holding at zero.
- A **directory** of named portfolios has a current selection.

Modules, one file each:

- `Wrappers` (`wrappers.dfy`): `Option`, `Result` and `Outcome`. These stand in for the source's raised `ValueError`s.
- `Ledger` (`ledger.dfy`): value-level definitions of the ledger and the allocation: adding, selling, the allocation check, and the valuation `SumValue`.
- `Rebalance` (`rebalance.dfy`): the rebalance arithmetic, the suggestion list `Suggest`, the portfolio's own stop-at-first-unheld report `StrictReport`, and the application of trades `ApplyAll`.
- `Classes` (`classes.dfy`): the classes `Stock` and `Portfolio`. Their methods update fields in place and are proved against the `Ledger` and `Rebalance` functions.
- `Manager` (`manager.dfy`): the command-line driver's logic, without its console. This covers the interactive rebalance, portfolio selection, portfolio creation, and the demonstration portfolio.

Modelling choices:

- Stocks are identified by their symbol string.
- Prices are passed as a table from symbol to price. This stands in for the shared `Stock` objects the source uses as dictionary keys.
- Python floats are modelled as exact `real`s.
- The model keeps dictionary insertion order only for the allocation, because that order fixes the order of the suggested trades. The allocation is therefore a sequence of `(symbol, percentage)` pairs with no repeated symbol.

## Model

| member | source | states |
|---|---|---|
| Classes.Stock.constructor | classes.py:5-7 | The symbol and the price are stored as given; a negative price is not refused. |
| Classes.Stock.CurrentPrice | classes.py:10-13 | A negative new price fails with `NegativePrice` and keeps the old price; any other becomes the price. |
| Classes.Portfolio.constructor | classes.py:25-27 | A new portfolio has no holdings and no allocation. |
| Ledger.Added | classes.py:30-36 | Adding fails exactly when the number of shares is not positive. Otherwise the stock holds its old amount (zero if absent) plus the shares, and no other entry changes. Positive-only and non-negative ledgers stay so. |
| Classes.Portfolio.AddStock | classes.py:30-36 | The ledger becomes `Added`'s result on success. On failure the error is reported and the ledger is unchanged. The allocation never changes. |
| Ledger.Sold | classes.py:38-47 | Selling fails exactly when the stock is not held, the shares are not positive, or they exceed the holding, with errors checked in that order. On success the holding drops by exactly the shares, and the entry disappears exactly when it reaches zero. Other entries are unchanged, and positivity is kept. |
| Classes.Portfolio.SellStock | classes.py:38-47 | The ledger becomes `Sold`'s result on success; on failure it is unchanged and the error is reported. |
| Ledger.ReplayKeepsPositive | classes.py:30-47 | Starting from a ledger of positive entries, no sequence of adds and sells, failed ones included, leaves an entry of zero or fewer shares. |
| Ledger.FirstUnheld | classes.py:59-61 | Nothing is returned exactly when every allocated stock is held. Otherwise the result is the first allocated stock, in allocation order, that is not held. |
| Ledger.AllocationCheck | classes.py:55-61 | An allocation passes exactly when its percentages sum to 100 and every stock it names is held. A wrong sum is reported first. Otherwise the failure always names the first unheld stock in allocation order. |
| Classes.Portfolio.SetAllocation | classes.py:55-62 | The outcome is `AllocationCheck` of the targets against the ledger. On success the allocation is replaced by the targets; on failure it is unchanged. The ledger is never changed. |
| Ledger.AllocationView | classes.py:65-67 | The displayed allocation has exactly the allocated symbols as keys, each mapped to its own percentage. |
| Ledger.SumValueRemove | classes.py:70-74 | The portfolio value does not depend on the order holdings are visited in: any holding can be taken first. |
| Ledger.SumValueNonNegative | classes.py:70-74 | With no negative price and no negative holding, the portfolio value is not negative. |
| Ledger.SumValueUpdate | classes.py:70-74 | Setting one holding to `q` values that stock at price times `q` and the rest of the ledger as before. |
| Ledger.TotalAfterAdd | classes.py:30-36 | A successful add raises the portfolio value by exactly the price times the shares added. |
| Ledger.SumValueRaise | classes.py:33-36 | Raising one holding by `n`, counting from zero when absent, raises the portfolio value by exactly its price times `n`. |
| Ledger.TotalAfterSell | classes.py:38-47 | A successful sale lowers the portfolio value by exactly the price times the shares sold. |
| Classes.Portfolio.TotalValue | classes.py:70-74 | The loop's total is the sum over all holdings of price times shares, which is 0.0 for an empty ledger. |
| Ledger.HeldPrefix | classes.py:59-61 | The position of the first allocated stock not held, or the allocation's length when every stock is held. Every stock before it is held, and `FirstUnheld` names the stock at that position. |
| Rebalance.StrictReportAgrees | classes.py:79-89 | The portfolio's own report stops exactly at the first allocated stock that is not held. Before that it has one line per allocated stock, and its trades are the interactive rebalance's suggestions for that prefix. When every stock is held, the prefix is the whole allocation. |
| Classes.Portfolio.Rebalance | classes.py:76-89 | The report loop yields `StrictReport`: in allocation order, a trade for each gap above the threshold and "no action needed" for the others, stopping at the first unheld stock and naming it. |
| Rebalance.Label | main.py:162-164 | A trade is shown as Buy exactly when its shares are positive, otherwise as Sell. The number shown is never negative, and together with the side it restores the trade. |
| Rebalance.Suggest | main.py:154-167 | At most one trade is suggested per allocated stock. |
| Rebalance.SuggestAppend | main.py:156-165 | Suggestions follow allocation order: the suggestions for two allocations back to back are their suggestions back to back. |
| Rebalance.SuggestSound | main.py:156-165 | Every suggested trade is the closing trade, difference divided by price, of an allocated stock whose gap strictly exceeds the threshold. |
| Rebalance.SuggestComplete | main.py:156-165 | Every allocated stock whose gap strictly exceeds the threshold has its closing trade suggested. |
| Rebalance.SuggestDistinct | main.py:156-165 | An allocation without repeated stocks yields at most one trade per stock. |
| Rebalance.ThresholdIsStrict | main.py:161-167 | A gap exactly at the threshold gives no trade, and a gap above it gives the closing trade. |
| Rebalance.ExampleSuggestions | main.py:154-167 | AAPL 190 x 10, MSFT 320 x 5 and GOOG 140 x 2 are worth 3780. Against a 50/30/20 allocation at a 1% threshold they give no trade for AAPL, sell 466/320 MSFT and buy 476/140 GOOG. |
| Rebalance.ApplyOthersUnchanged | main.py:175-180 | Applying trades leaves a stock that no trade names exactly as it was, present or absent. |
| Rebalance.ApplyTouched | main.py:175-180 | With one trade per stock, each traded stock ends at its old holding (zero if absent) plus the trade, clamped at zero. |
| Rebalance.ApplyKeepsNonNegative | main.py:175-180 | Applying trades never stores a negative holding. |
| Rebalance.ApplyCanStoreZero | main.py:176-180 | Unlike a sale, applying a trade can leave an entry of exactly zero shares. |
| Rebalance.RebalanceSetsTraded | main.py:154-180 | After a confirmed rebalance, each allocated stock whose gap exceeds the threshold holds its old amount plus its closing trade, clamped at zero. |
| Rebalance.RebalanceKeepsUntraded | main.py:154-180 | After a confirmed rebalance, a stock that is unallocated or within the threshold keeps its holding. |
| Rebalance.ActionForHitsTarget | main.py:157-162 | Moving a holding by its closing trade makes it worth exactly its target value. |
| Rebalance.RebalanceHitsTarget | main.py:157-180 | When the trade is not clamped, a traded stock's value after a confirmed rebalance (price times new holding) equals its target value. |
| Manager.SuggestActions | main.py:154-167 | The suggestion loop yields exactly `Suggest` of the allocation, the ledger, the total and the threshold, and only reads the portfolio. |
| Manager.SuggestionsRepeat | main.py:154-171 | Computing the suggestions twice without applying them yields identical lists. |
| Manager.ApplyActions | main.py:175-180 | The apply loop leaves the ledger at `ApplyAll` of the old ledger and the trades. The allocation is unchanged, and no holding becomes negative. |
| Manager.RebalancePortfolio | main.py:142-183 | A portfolio worth zero stops first, then one without an allocation, then one with nothing to trade; none of these touches the holdings. Otherwise only the answer "y" applies the suggested trades; any other answer changes nothing. |
| Manager.SelectPortfolio | main.py:32-46 | With no portfolios the selection is none. An entered name that exists becomes the selection; otherwise the current selection is kept. A selection that named a portfolio (or none) still does. |
| Manager.Directory.constructor | main.py:195-196 | The directory starts with no portfolios and no selection. |
| Manager.Directory.Create | main.py:217-224 | An existing name is refused and nothing changes. Otherwise a fresh empty portfolio is added under the name and selected, and the other portfolios are kept. The selection always names a portfolio. |
| Manager.Directory.Select | main.py:226-227 | The selection becomes `SelectPortfolio` of the directory's names; the portfolios are unchanged. |
| Manager.DemoPortfolio | main.py:52-63 | Built through the portfolio's own add and allocate operations, the demo portfolio holds exactly the given AAPL, MSFT and GOOG shares. Its allocation is 50/30/20, so the allocation check passes. |
| Manager.Directory.CreateTestData | main.py:49-66 | "Demo" is replaced by that fresh portfolio, with no duplicate-name check, and becomes the selection. The other portfolios are kept and the selection still names a portfolio. |

## Left out

- Console input and output are not modelled: the menu loop, prompts, screen clearing, `:.2f` formatting, and the parsing of typed numbers.
  - The confirmation is the answer already stripped and lower-cased.
  - The demonstration portfolio's share counts are parameters, bounded as `random.randint` bounds them.
- Floating-point rounding is not modelled. Percentages, prices and shares are exact reals, so the exact `!= 100` check on the allocation sum is exact real equality.
- The source keys its dictionaries by `Stock` objects shared by reference. The model keys by symbol and reads prices from a table, so a price change between two operations is a different table.
  - With symbol keys, `get_stocks` (classes.py:50-52) is the ledger itself.
  - `get_allocation` (classes.py:65-67) is modelled as `AllocationView` without the "%" text suffix.
- The ledger's own dictionary order is not modelled. It sets the order in which `total_value` adds, and `SumValueRemove` shows the sum does not depend on it. It sets the order in which `show_portfolio_summary` prints. It also sets the order in which the allocation menu (main.py:267-277) asks for percentages and builds the allocation. That order then fixes the order of the suggestions and of the apply loop. The model takes the allocation as a given sequence, in whatever order it was built.
- Menu branches other than portfolio creation and selection are not modelled: summary, listing, the add/sell/allocate branches' input handling, and `modify_stocks`. They are console code around the modelled operations.
- The model uses a name as the current selection whenever it is present. The source treats an empty portfolio name as "no portfolio selected" because an empty string is falsy.
- Classes.Portfolio.Rebalance: requires a non-zero portfolio value even for an empty allocation, where the source would not divide. It also requires every allocated stock to have a non-zero price (`Priced`), while classes.py:85 divides by the price only when a trade is needed. An allocated stock that is not held is modelled as the report stopping and naming it, in place of the `KeyError`.
- Rebalance.Suggest: requires every allocated stock to have a non-zero price, while the source divides by the price only when a trade is needed. A zero price there is a division fault in the source.
- Manager.RebalancePortfolio: requires the same non-zero prices as `Suggest`.
- The allocation check follows the code: it tests only that an allocated stock has a ledger entry. An entry of zero shares, which only an applied rebalance can leave, passes.
- The threshold of `rebalance` (classes.py:76) and `rebalance_portfolio` (main.py:142) defaults to 0.01. In the model it is always passed explicitly, and 0.01 is one value it can take.
