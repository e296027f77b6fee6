# Coffee-shop point of sale: orders, stock corrections and report windows

This project models the backend of a coffee-shop point-of-sale system. The model has
three parts:

- **Order placement** (`POST /orders`). A cashier submits a list of items. The handler looks up
  the products, checks them in a fixed order and prices the order. It checks snack stock and
  then either commits everything together or rolls back: the order, its order items and the
  snack stock decrements.
- **Stock correction** (`POST /inventory/adjust`). A snack's stock changes by a signed delta.
  The correction runs without a transaction.
- **Sales report windows** (`GET /analytics`). The query string (a month, or a start and an
  end day) becomes a half-open window of timestamps at 02:00 UTC. The handler also computes the
  previous-month comparison window. Its first-wins reductions pick the best and worst day, the
  peak weekday and the best category from the rows the aggregate queries return.

The store is abstract: products, snack inventory and committed orders (`Store.Tables`), held by
a mutable `Store.Database`. Each handler that changes the store is a module-level method that
modifies a `Database`. Its postcondition equates the new state and the answer with a specification function of the old
state (`Orders.PlaceOrderSpec`, `Inventory.AdjustSpec`). The properties are lemmas about those
functions.

The order handler's loops are modelled as separate methods over values, each proved equal to its
specification function, or, for `byId`, to the key/value properties the map must have:

- the "ensure active" loop;
- the `byId` map;
- the pricing loop;
- the availability loop;
- the order-items loop;
- the decrement loop.

Money is in integer thousandths of a rial (prices have three decimals), so totals are exact.

Calendar arithmetic follows JavaScript's `Date` in UTC (`Calendar`):

- `setUTCDate` and `setUTCMonth` normalise out-of-range days and months as ECMAScript's MakeDay
  does (`Calendar.Normalize`).
- Both are checked against an independent day count since 1970-01-01 (`Calendar.DayNumber`,
  built on ECMAScript's DayFromYear).
- ISO text is produced by `Calendar.IsoString` and read by `Calendar.ParseIso`, and the lemma
  `Calendar.ParseIsoString` proves that reading back a date's ISO text gives the date.

Files:

- `wrappers.dfy`: `Option`, `Result`.
- `text.dfy`: decimal digits.
- `store.dfy`: tables and the `Database` class.
- `orders.dfy`, `inventory.dfy`, `analytics.dfy`: the three handlers.
- `calendar.dfy`: dates.

## Behaviour worth knowing

- **Repeated product ids.** A request that names the same product on two lines fails with
  "One or more products not found". The reason is that routes/orders.js:26 compares the row count
  with the full id count (`Orders.PlaceOrderDuplicateExample`). As a result, no product is ever
  needed twice by the time stock is checked (`Orders.SnackNeedsDistinct`).
- **No inventory rows from order placement.** Order placement never creates an inventory row. A
  missing row reads as 0 available (routes/orders.js:71), and the `UPDATE` of a missing row
  changes nothing; `Orders.PlaceOrderInventory` proves that the committed inventory has exactly
  the old keys. Only `/adjust` creates rows (routes/inventory.js:38-41).

## Model

| member | source | states |
|---|---|---|
| Orders.SelectRows | routes/orders.js:20-24 | the product query returns at most as many rows as ids, each an existing product's current data |
| Orders.SelectRowsExact | routes/orders.js:20-24 | the rows are exactly the requested products that exist, each once: every row's id was requested, no id repeats, every requested existing product is returned |
| Orders.SelectRowsCount | routes/orders.js:20-28 | the row count equals the id count if and only if no id repeats and every id names a product |
| Orders.SelectRowsAligned | routes/orders.js:20-24 | when every id is found once, the k-th row is the product of the k-th item |
| Orders.FirstInactive | routes/orders.js:31-36 | none if and only if every row is active; otherwise an inactive row before which all rows are active |
| Orders.FirstInactiveAt | routes/orders.js:31-36 | an inactive row preceded only by active rows is the one reported |
| Orders.FindInactive | routes/orders.js:31-36 | the loop stops at the first inactive row, or finds none |
| Orders.BuildById | routes/orders.js:38-40 | the keys are exactly the fetched rows' ids, and each key maps to that product's row |
| Orders.PriceItems | routes/orders.js:43-62 | a non-positive quantity gives "Invalid quantity"; otherwise the exact total and the snack needs in item order |
| Orders.SnackNeedsMembers | routes/orders.js:57-59 | the snack needs are exactly the (product, name, quantity) of the snack items |
| Orders.SnackNeedsDistinct | routes/orders.js:26-59 | once repeated ids are rejected, no product appears twice among the snack needs |
| Orders.FindShortfalls | routes/orders.js:64-75 | the availability loop collects the needs the available stock does not cover, a missing row counting as 0 |
| Orders.ShortfallsMembers | routes/orders.js:65-75 | a shortfall is reported for a need exactly when the available quantity is below it, with need and available |
| Orders.BuildLines | routes/orders.js:92-102 | one order item per request item, product price at sale, note defaulting to "" |
| Orders.ApplyDecrements | routes/orders.js:104-110 | the decrement loop leaves the inventory that the successive `UPDATE`s produce |
| Orders.DecrementEffect | routes/orders.js:104-110 | for distinct needs: no row is created or removed, each needed row drops by its need, all other rows are unchanged |
| Orders.TotalMatchesLines | routes/orders.js:43-102 | the committed total equals the sum of price at sale times quantity over the committed order items |
| Orders.PlaceOrder | routes/orders.js:6-120 | the handler's new tables and answer are those of the transition for the old tables |
| Orders.PlaceOrderRejectsEmptyItems | routes/orders.js:10-12 | a missing or empty item list is refused with "Order items required" and nothing changes |
| Orders.PlaceOrderRejectsUnresolved | routes/orders.js:20-28 | for non-empty items, "not found" occurs if and only if an id repeats or names no product; nothing changes |
| Orders.PlaceOrderRejectsInactive | routes/orders.js:31-36 | after the lookup, refusal as inactive occurs if and only if some product is inactive; it names the first such item's product; nothing changes |
| Orders.PlaceOrderRejectsBadQuantity | routes/orders.js:46-53 | after the earlier checks, "Invalid quantity" occurs if and only if some quantity is not positive; nothing changes |
| Orders.PlaceOrderRejectsShortfall | routes/orders.js:65-83 | after the earlier checks, rollback occurs if and only if some snack item is short; every short snack item, and nothing else, is reported; nothing changes |
| Orders.ShortfallsDistinct | routes/orders.js:65-75 | when no product is needed twice, no product is reported short twice |
| Orders.PlaceOrderShortfallReport | routes/orders.js:65-83 | a rollback for stock reports exactly the availability pass over the snack needs, in request order and without repeated products, and changes nothing |
| Orders.PlaceOrderCommits | routes/orders.js:85-102 | success if and only if every check passes; exactly one order is appended with cashier, payment method, exact total and one aligned item per request item |
| Orders.PlaceOrderInventory | routes/orders.js:104-112 | on commit, each snack's row drops by its quantity and stays at or above 0; other rows are unchanged; no row is created; non-negativity is preserved |
| Orders.PlaceOrderFailureRepeats | routes/orders.js:10-83 | a refused request leaves the tables exactly as they were, so repeating it gives the same refusal |
| Orders.PlaceOrderExample | routes/orders.js:43-112 | 3 snacks at 0.500 from stock 5 plus 2 drinks at 1.250 commit a 4.000 order and leave stock 2 |
| Orders.PlaceOrderDuplicateExample | routes/orders.js:20-28 | the same product on two lines is refused as not found |
| Inventory.Adjust | routes/inventory.js:26-61 | the handler's new tables and answer are those of the adjustment for the old tables |
| Inventory.AdjustRejectsUnknownProduct | routes/inventory.js:31-32 | "Product not found" occurs exactly for an unknown product, and nothing changes |
| Inventory.AdjustRejectsNonSnack | routes/inventory.js:33-35 | "Only snacks have inventory" occurs exactly for a known non-snack, and no row is created |
| Inventory.AdjustSnack | routes/inventory.js:37-55 | for a snack the row exists afterwards; refusal occurs if and only if current + delta < 0, it reports current and keeps it; on success the row holds current + delta, which is at least 0 |
| Inventory.AdjustFrame | routes/inventory.js:37-55 | products and orders are untouched; only the target row can be added or changed; non-negativity is preserved |
| Inventory.AdjustUndo | routes/inventory.js:44-55 | on a non-negative inventory, adjusting by delta and then by -delta restores the quantity |
| Inventory.AdjustExample | routes/inventory.js:37-50 | a snack without a row cannot go to -1; the answer reports "Current=0" and leaves a row holding 0 |
| Calendar.Normalize | routes/analytics.js:17-27 | any day number becomes a valid date, and a day inside the month is kept as is |
| Calendar.NormalizeDayNumber | routes/analytics.js:17-27 | the normalised date lies exactly dt - 1 days after the first of the month |
| Calendar.SetUTCDateShifts | routes/analytics.js:17-21 | `setUTCDate(getUTCDate() + n)` moves a date by exactly n days |
| Calendar.SetUTCMonthShifts | routes/analytics.js:23-27 | `setUTCMonth(getUTCMonth() + n)` lands n months on, keeping the day when it fits and rolling over otherwise |
| Calendar.LeapStep | routes/analytics.js:17-27 | the leap days counted before January 1 grow by one from year `y` to `y + 1` exactly when `y` is a Gregorian leap year |
| Calendar.YearStep | routes/analytics.js:17-27 | January 1 of the next year is 365 or 366 days on, following the leap-year rule |
| Calendar.MonthStep | routes/analytics.js:35-38 | the first of the next month is the month's length in days on, December rolling into January |
| Calendar.NeighbourMonths | routes/analytics.js:35-38 | next and previous month step the month index by one and are inverse to each other |
| Calendar.MonthIndexRoundTrip | routes/analytics.js:23-27 | month indices and (year, month) pairs correspond one to one |
| Calendar.DayNumberOrder | routes/analytics.js:39-44 | calendar order and day-number order agree, and equal day numbers mean equal dates |
| Calendar.ParseIsoString | routes/analytics.js:17-20 | `new Date` of a date's `toISOString()` text at 02:00 UTC gives the date back |
| Analytics.StartTsFromYMDDenotes | routes/analytics.js:7-10 | the timestamp built from a day's text is that day's ISO string and denotes that day |
| Analytics.StartTsFromMonthDenotes | routes/analytics.js:12-15 | the timestamp built from a month's text denotes the first of that month |
| Analytics.StartTsFromMonthIsFirst | routes/analytics.js:12-15 | any month text whose timestamp parses denotes a first of the month |
| Analytics.AddDaysISO | routes/analytics.js:17-21 | the result is a valid date exactly `days` days on |
| Analytics.AddMonthsISO | routes/analytics.js:23-27 | the result is `months` months on, with the same day when it fits and the overflow rolled into the following month otherwise |
| Analytics.SelectRange | routes/analytics.js:29-49 | month wins over start/end; a month gives [first of month, first of next month); a range gives [start, day after end), non-empty when start is not after end; otherwise the 400 message |
| Analytics.MonthCompare | routes/analytics.js:347-351 | only in month mode: a window ending at the report start and, for a first of month, starting at the first of the previous month, exactly that month long |
| Analytics.FirstMax | routes/analytics.js:309-312 | the fold yields null exactly on an empty list; otherwise a row of greatest key |
| Analytics.FirstMaxIsFirst | routes/analytics.js:309-312 | the fold yields the first row of greatest key; later ties do not replace it |
| Analytics.FirstMaxIndex | routes/analytics.js:309-312 | every non-empty list has a first row of greatest key |
| Analytics.FirstMinIndex | routes/analytics.js:314-317 | every non-empty day list has a first day of least revenue |
| Analytics.BestWorstDay | routes/analytics.js:300-318 | the best day is the first of greatest revenue; the worst day is the first of least revenue |
| Analytics.DailyExtremes | routes/analytics.js:300-318 | best and worst day are null exactly without days, else the first days of greatest and least revenue |
| Analytics.EmptyReductions | routes/analytics.js:300-338 | every reduction over an empty list is null |
| Analytics.PeakDayIsFirst | routes/analytics.js:323-327 | the peak weekday is the name of the first weekday of greatest revenue, null when that name is empty |
| Analytics.BestCategoryIsFirst | routes/analytics.js:329-338 | the best categories are those of the first rows of greatest revenue and of most units |

## Left out

- HTTP and connection plumbing are not modelled. This covers Express routing, response shaping,
  the `pg` pool, `client.release()` and authentication. The cashier id is an input of
  `Orders.PlaceOrder`.
- `BEGIN`/`COMMIT`/`ROLLBACK` are modelled only as commit-or-discard of the tables. The
  "not found" path of routes/orders.js:26-28 returns without `ROLLBACK`. This leaves its
  connection in an open transaction, which is a connection-level effect the tables do not show.
- Concurrency is not modelled. This covers the `FOR UPDATE` row locks, the unlocked
  read-then-write of the stock correction, and the parallel report queries. Each handler runs
  alone on the tables.
- Floating point is replaced by integer thousandths:
  - `Number(...)`, the float sum and `Math.round` of the total become exact integer sums.
  - The daily average, the payment percentages and `toFixed` are left out.
- Orders.PlaceOrder: quantities are integers. The source's check `!qty || qty <= 0` rejects 0,
  NaN and negative quantities but accepts positive fractions, which the model cannot express.
- Inventory.Adjust: `delta` is an integer. A non-numeric delta (NaN) in the source slips past the
  `next < 0` check and fails in the database; that path is not modelled.
- Row order of `product_id = ANY($1)` is fixed by the model. The query fixes no order; the model
  returns rows in order of first occurrence in the request. This decides only which inactive
  product is named when several are inactive.
- All SQL aggregation of the report is left out: summary, payments, top products, slow movers,
  categories, hours, weekdays, daily rows, top product per day, best seller. The reductions take
  the rows these queries return as inputs. The peak hour (`rows[0]?.hour`) is left out too.
- Timestamps set by the database are not modelled: `created_at`, `updated_at` and the generated
  order id. An order's items are kept inside the `Order` value.
- The `500` catch-all paths (database errors) are not modelled.
- SelectRange: parameters must be zero-padded `YYYY-MM` / `YYYY-MM-DD` naming real days.
  - A `start` in another form goes to the database, which may reject it (500) or read it as a
    date; neither is modelled.
  - A malformed `month` or `end` makes `new Date` produce an invalid date, and the helpers then
    throw outside the `try`.
  - Day-of-month overflow that the date parser itself normalises (a day of 30 in February) is not
    modelled.
- Analytics.AddDaysISO and Analytics.AddMonthsISO take and return the parsed date rather than
  ISO text. The correspondence is `Calendar.ParseIsoString`. The extended six-digit-year ISO
  format, used for years outside 0..9999, is not modelled. Neither is the range limit of
  JavaScript time values.
- The weekday rows' names and the category names come from the database. They are inputs here.
- The GET inventory list, products CRUD, login/seeding, the reports router and the server
  wiring are plain lookups or wiring and are not part of this model.
