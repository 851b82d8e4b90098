# Inventory reservations and dynamic pricing, modelled in Dafny

This project models the core of a Spring e-commerce service that holds
stock for shopping carts and prices each cart line with discount rules.

- **Variant ledger.** Every variant has a `stock` count and a `reserved`
  count. The ledger invariant (`Store.Valid`) has four parts:
  - `LedgerConsistent`: a variant's reserved count equals the total of its
    unreleased holds and never exceeds stock.
  - `HoldsLinked`: every unreleased hold belongs to an existing cart item of
    the same variant and quantity.
  - `OneHoldPerItem`: no cart item owns two unreleased holds.
  - `ItemsIssued`: item quantities are positive, and every item id was issued
    by the id counter.

  The source's resize and removal loop over all of an item's holds. Under
  `OneHoldPerItem` an item has at most one, so in a valid store the
  multi-hold branches of those loops never run. The preservation lemmas
  cover the single-hold case. The multi-hold behaviour is still stated for
  any store, by `CartService.DistributeMovesDifference`,
  `CartService.DistributeDrains`, `CartService.ReleaseAll` and
  `CartService.ReleaseHolds`.
- **Cart service** (`CartService`). Adding a line reserves stock, creates a
  15-minute hold and freezes a price snapshot. Resizing a line moves the
  reserved count by the quantity difference and spreads it over the line's
  holds. Removing a line releases its holds and deletes it.
- **Pricing engine** (`Pricing`). A quote takes the product's base price
  plus the variant's adjustment. Four rule passes then run in a fixed order
  (SEASONAL, BULK, USER_TIER, PROMO). Each discount comes off the running
  price and is recorded in an audit trail. Global and per-user usage caps are
  checked, and the price is clamped at zero.
- **Checkout** (`Checkout`). Each listed hold moves from reserved to sold.
  The order total uses the frozen unit prices. One rule use is counted for
  the cart's owner per audit entry.
- **Expiry sweep** (`Expiry`). Once per minute, guarded by a per-minute
  lease, holds that have expired and are still unreleased give their units
  back.
- **Category tree** (`Categories`). The flat category list is assembled into
  roots and children.

Each transaction is a pure function from a `Store.State` to a `Types.Result`.
A failure carries an error and changes nothing, which is how the
transaction's rollback appears in the model. The clock is an integer
parameter `now` in seconds. Prices are `real`. Reservation ids are positions
in the reservation sequence, and cart-item ids come from the counter
`nextItemId`.

Where the code departs from its documented intent, the model follows the
code:

- `addItemToCart` never checks that the quantity is positive
  (`CartService.AddNegativeQuantityUnderflows`). The invariant lemmas for add
  therefore assume a positive quantity.
- The seasonal pass ignores a rule's flat amount.
- The promo pass records its entries as `PROMO_CODE`.
- The checkout total multiplies by the item's quantity, not the hold's.
- Usage is counted once per audit entry, whatever the line's quantity.
- A reservation whose variant is missing is skipped by the sweep. The rest
  of the sweep still runs.

## Model

| member | source | states |
|---|---|---|
| Store.ActiveFor | src/main/java/com/example/ecommerce/service/CartService.java:115 | the ids of exactly the unreleased holds linked to the item, each once, in ascending id order |
| Store.ActiveSumUpdate | src/main/java/com/example/ecommerce/service/CartService.java:193-202 | replacing one hold changes a variant's unreleased total by exactly the new hold's contribution minus the old one's; this is the accounting step behind every release |
| Store.ValidBounds | src/main/java/com/example/ecommerce/service/CartService.java:55-61 | in a store that keeps the ledger invariant, every variant has 0 <= reserved <= stock |
| Store.ValidHoldOfItem | src/main/java/com/example/ecommerce/service/CartService.java:115-118 | in such a store an item owns either no unreleased hold or exactly one, with the item's variant and quantity |
| Store.SumUsageUpdate | src/main/java/com/example/ecommerce/repository/PricingRuleUsageRepository.java:12-16 | changing one usage row changes both usage sums by exactly that row's change |
| Pricing.ActiveValidRules | src/main/java/com/example/ecommerce/repository/PricingRuleRepository.java:15 | keeps exactly the active rules whose inclusive window (with open null bounds) contains now, each as often as it is stored, and never adds a rule |
| Pricing.TargetMatching | src/main/java/com/example/ecommerce/service/PricingEngine.java:134-139 | a PRODUCT rule matches iff its target id is the product; a VARIANT rule matches iff a variant is given and is its target; a CATEGORY rule matches iff the product has a category and it is the target; a rule without a target type or target id matches nothing; replacing the target type by any case-insensitively equal string never changes the match |
| Pricing.UsageAllowed | src/main/java/com/example/ecommerce/service/PricingEngine.java:141-160 | a reached global cap refuses the rule without asking for a user; otherwise a per-user cap with no user id is the UserIdRequired error; the rule is allowed iff neither cap is reached |
| Pricing.DiscountShape | src/main/java/com/example/ecommerce/service/PricingEngine.java:71-119 | the seasonal discount ignores the flat amount; the other passes add the flat amount to the percentage part; a null percentage contributes nothing |
| Pricing.Selected | src/main/java/com/example/ecommerce/service/PricingEngine.java:65-127 | the reference choice of one pass: a rule is applied iff it is valid, passes that pass's predicates and the usage check |
| Pricing.ApplyPass | src/main/java/com/example/ecommerce/service/PricingEngine.java:65-127 | one pass fails iff some matching rule trips the usage check; otherwise it takes each selected rule's discount off the running price, in rule order, one audit entry per selected rule |
| Pricing.ReplayFacts | src/main/java/com/example/ecommerce/service/PricingEngine.java:73-77 | a pass writes one audit entry per selected rule, all carrying the pass's label, naming those rules in order |
| Pricing.ApplyAllPasses | src/main/java/com/example/ecommerce/service/PricingEngine.java:64-127 | the four passes run SEASONAL, BULK, USER_TIER, PROMO; the price drops by the sum of the recorded amounts; entries are grouped by pass in that order; each label's entries name exactly that pass's selected rules |
| Pricing.ReplaysIsTrail | src/main/java/com/example/ecommerce/service/PricingEngine.java:73-77 | a pass's entries replay its selected rules iff they equal the reference trail, in which each discount is taken off the price the entries before it left |
| Pricing.AllPassesTrail | src/main/java/com/example/ecommerce/service/PricingEngine.java:64-127 | four passes that each replay their selected rules, each starting from the price the one before left, write exactly the quote's reference trail |
| Pricing.AllPassesFollowTrail | src/main/java/com/example/ecommerce/service/PricingEngine.java:64-127 | a successful run of the passes writes exactly the reference trail: every amount is fixed, and the discounts compound across pass boundaries |
| Pricing.AuditLabelsDistinct | src/main/java/com/example/ecommerce/service/PricingEngine.java:75-123 | the four audit labels differ; the promo pass writes PROMO_CODE |
| Pricing.CalculatePrice | src/main/java/com/example/ecommerce/service/PricingEngine.java:46-59 | a missing product or variant is an error; otherwise the quote fails iff a matching rule needs a user id it lacks; on success base and adjustment are copied, the unit price is max(0, start minus recorded discounts), the total is unit price times quantity, and the audit trail is ordered by pass with each pass's selected rules |
| Pricing.QuoteFollowsTrail | src/main/java/com/example/ecommerce/service/PricingEngine.java:46-131 | a successful quote's audit trail is exactly the reference trail of the valid rules from base price plus adjustment, so each recorded amount is the discount of the price left before it |
| Pricing.ResolvedQuoteFollowsTrail | src/main/java/com/example/ecommerce/service/PricingEngine.java:46-131 | the same, for a product and variant that resolve |
| Pricing.PriceLine | src/main/java/com/example/ecommerce/service/PricingEngine.java:60-131 | from the start price: the passes, then the clamp at zero and the line total; fails exactly when a pass fails |
| Pricing.PriceLineTrailFrom | src/main/java/com/example/ecommerce/service/PricingEngine.java:60-131 | a successful priced line's audit trail is exactly the reference trail from its start price, base price plus adjustment |
| Pricing.PerUserCapSkipsRule | src/main/java/com/example/ecommerce/service/PricingEngine.java:151-157 | a rule whose per-user cap the user has reached is never applied |
| Pricing.GlobalCapSkipsRule | src/main/java/com/example/ecommerce/service/PricingEngine.java:143-149 | a rule whose global cap is reached is never applied and never raises the user-id error |
| Pricing.ExpiredRuleIgnored | src/main/java/com/example/ecommerce/repository/PricingRuleRepository.java:15 | a rule outside its validity window is applied by no pass |
| Pricing.BulkQuoteExample | src/main/java/com/example/ecommerce/service/PricingEngine.java:81-95 | base 100, one 10% BULK rule from quantity 5, five units: one BULK entry of 10, unit price 90, total 450 |
| Pricing.QuoteReadsOnly | src/main/java/com/example/ecommerce/service/PricingEngine.java:46-131 | a quote depends only on products, rules, usage rows and the variant's price adjustment; stock and reserved counts do not affect it |
| CartService.AddItemToCart | src/main/java/com/example/ecommerce/service/CartService.java:50-91 | errors in source order (cart, variant, insufficient available stock, pricing); on success the store is the reserve of the line with its quote |
| CartService.ReserveLine | src/main/java/com/example/ecommerce/service/CartService.java:59-89 | the reserved count grows by the quantity, one unreleased hold of that quantity expiring 900 s later is appended and linked to the next item id, the item carries the quote's unit price, trail and subtotal, and the id counter advances |
| CartService.QuoteIgnoresReservedCount | src/main/java/com/example/ecommerce/service/CartService.java:60-72 | quoting after the reserve, as the source does, gives the same quote as quoting before it |
| CartService.ResizeHold | src/main/java/com/example/ecommerce/service/CartService.java:142-161 | a growth goes wholly to the hold; a shrink takes min(left, hold) and releases the hold at zero; the expiry is extended either way |
| CartService.Distribute | src/main/java/com/example/ecommerce/service/CartService.java:140-162 | only the listed holds change and the number of holds is kept; a growth goes wholly to the first hold, which also gets the new expiry, and nothing is left over |
| CartService.DrainsFirstHold | src/main/java/com/example/ecommerce/service/CartService.java:141-159 | a shrink takes from the first hold all it holds up to the decrease, releases it at zero and extends its expiry |
| CartService.DistributeDrains | src/main/java/com/example/ecommerce/service/CartService.java:140-160 | in a shrink, each hold gives up what is still owed when the loop reaches it (at most all it holds), is released when it reaches zero and gets the new expiry; a hold reached after the decrease is covered is left as it was |
| CartService.DistributeMovesDifference | src/main/java/com/example/ecommerce/service/CartService.java:140-162 | the listed holds' total moves by exactly the amount distributed; a growth is absorbed whole, a shrink whole when the holds cover it and otherwise drains them |
| CartService.DistributeSingleHold | src/main/java/com/example/ecommerce/service/CartService.java:140-162 | with a single hold a resize to a positive quantity sets that hold to the new quantity and new expiry, still unreleased |
| CartService.UpdateCartItemQuantity | src/main/java/com/example/ecommerce/service/CartService.java:103-171 | errors in source order (missing item, non-positive quantity, no active hold, missing variant, insufficient stock only when growing); otherwise the resize succeeds; equal quantity leaves the ledger alone; on success the item keeps its unit price, takes the new quantity and subtotal, reserved moves by the difference, and the holds are those the distribution loop leaves over the item's active holds |
| CartService.ReleaseAll | src/main/java/com/example/ecommerce/service/CartService.java:193-199 | exactly the listed holds become released |
| CartService.RemoveCartItem | src/main/java/com/example/ecommerce/service/CartService.java:179-208 | a missing item is an error; a missing variant is an error only when the item has holds; otherwise the removal succeeds |
| CartService.ReleaseHolds | src/main/java/com/example/ecommerce/service/CartService.java:186-207 | the item is deleted; without holds nothing else changes; with holds each listed hold is released and otherwise unchanged, every other hold is unchanged, and the variant's reserved count drops by their total; the other tables are untouched |
| CartService.RemoveClearsHolds | src/main/java/com/example/ecommerce/service/CartService.java:193-199 | after a removal the item has no unreleased hold, and every hold that was not the item's is unchanged |
| CartService.ReservePreservesValid | src/main/java/com/example/ecommerce/service/CartService.java:50-91 | reserving a positive quantity that the available stock covers keeps the ledger invariant, whatever the quote |
| CartService.AddPreservesValid | src/main/java/com/example/ecommerce/service/CartService.java:50-91 | a positive-quantity add keeps the ledger invariant |
| CartService.ResizedHoldKeepsValid | src/main/java/com/example/ecommerce/service/CartService.java:130-168 | moving an item's single hold and its variant's reserved count to a new positive quantity within stock keeps the ledger invariant |
| CartService.ReleasedItemKeepsValid | src/main/java/com/example/ecommerce/service/CartService.java:186-207 | releasing an item's only hold, lowering reserved by its quantity and deleting the item keeps the ledger invariant |
| CartService.UpdatePreservesValid | src/main/java/com/example/ecommerce/service/CartService.java:103-171 | a resize keeps the ledger invariant |
| CartService.RemovePreservesValid | src/main/java/com/example/ecommerce/service/CartService.java:179-208 | a removal keeps the ledger invariant |
| CartService.AddThenRemoveRestores | src/main/java/com/example/ecommerce/service/CartService.java:50-91 | for every quote, removing an item just added succeeds, restores the variants and the item table, and leaves only the released hold behind |
| CartService.ResizeBackRestoresLedger | src/main/java/com/example/ecommerce/service/CartService.java:103-171 | resizing back to the old quantity succeeds and restores the variants |
| CartService.AddExhaustsStock | src/main/java/com/example/ecommerce/service/CartService.java:55-58 | after an add that takes all available units, any positive add of that variant fails for lack of stock |
| CartService.AddNegativeQuantityUnderflows | src/main/java/com/example/ecommerce/service/CartService.java:55-60 | the quantity is not checked: adding -1 succeeds and leaves reserved at -1 |
| Checkout.FindRow | src/main/java/com/example/ecommerce/repository/PricingRuleUsageRepository.java:10 | the position of the first usage row of (rule, user), or the end when there is none |
| Checkout.IncrementUsageCounts | src/main/java/com/example/ecommerce/service/CheckoutService.java:108-117 | one use raises both usage sums of (rule, user) by one and changes no other sum |
| Checkout.BumpUsageCounts | src/main/java/com/example/ecommerce/service/CheckoutService.java:100-118 | each usage sum grows by the number of audit entries naming the rule, for the cart owner only; entries without a rule id are skipped |
| Checkout.CheckoutStep | src/main/java/com/example/ecommerce/service/CheckoutService.java:47-83 | errors in source order (missing reservation, already released, missing item, other cart, missing variant, stock below the hold); a checkable hold that the stock covers always succeeds; on success stock and reserved drop by the hold's quantity, the hold is released, usage is counted and the amount is unit price times item quantity |
| Checkout.TotalsReadLinks | src/main/java/com/example/ecommerce/service/CheckoutService.java:80 | the batch's reference totals depend only on items and hold links, which checkout does not change |
| Checkout.CheckoutLoop | src/main/java/com/example/ecommerce/service/CheckoutService.java:47-84 | the batch succeeds only on distinct, checkable holds; it releases exactly them, leaves the others, keeps each variant's product and price adjustment, and totals their amounts |
| Checkout.CheckoutCart | src/main/java/com/example/ecommerce/service/CheckoutService.java:38-98 | a missing cart is an error; the checkout fails iff the loop fails, with nothing changed; on success the cart is CHECKED_OUT, one order with the batch total is appended, and variants, holds, usage rows and items are those the loop left |
| Checkout.LoopDrawsStock | src/main/java/com/example/ecommerce/service/CheckoutService.java:73-74 | per variant, stock and reserved each drop by the units the batch draws |
| Checkout.LoopCountsUsage | src/main/java/com/example/ecommerce/service/CheckoutService.java:83 | every usage sum grows by the batch's uses of the rule, for the cart owner only |
| Checkout.DuplicateIdFails | src/main/java/com/example/ecommerce/service/CheckoutService.java:50-54 | a reservation id listed twice aborts the checkout |
| Checkout.ValidStepSucceeds | src/main/java/com/example/ecommerce/service/CheckoutService.java:67-71 | in a store keeping the ledger invariant the stock check never fires for a checkable hold |
| Checkout.CheckoutPreservesValid | src/main/java/com/example/ecommerce/service/CheckoutService.java:38-98 | a checkout keeps the ledger invariant |
| Checkout.CheckoutSucceedsIff | src/main/java/com/example/ecommerce/service/CheckoutService.java:38-98 | in such a store a checkout succeeds iff the cart exists and the ids are distinct, unreleased holds of that cart's items |
| Checkout.SequentialCheckoutsNeverOversell | src/test/java/com/example/ecommerce/service/CheckoutServiceConcurrencyTest.java:30-74 | stock 5, reserved 6, two holds of 3: the first checkout succeeds, the second fails for lack of stock, 2 units remain |
| Expiry.ExpiredUnreleased | src/main/java/com/example/ecommerce/worker/ReservationExpiryWorker.java:38-39 | exactly the holds with expiresAt < now and not released, each once, in id order |
| Expiry.ReleaseOne | src/main/java/com/example/ecommerce/worker/ReservationExpiryWorker.java:42-52 | a hold with a variant lowers that variant's reserved by its quantity and becomes released; a hold without one leaves the store unchanged |
| Expiry.ReleaseExpired | src/main/java/com/example/ecommerce/worker/ReservationExpiryWorker.java:41-53 | stock, the variant set and every other table are untouched; unlisted holds are unchanged |
| Expiry.ReleaseExpiredExact | src/main/java/com/example/ecommerce/worker/ReservationExpiryWorker.java:41-53 | every listed hold with a variant is released, and no other hold changes |
| Expiry.Sweep | src/main/java/com/example/ecommerce/worker/ReservationExpiryWorker.java:30-58 | a held minute lease changes nothing; otherwise exactly the expired unreleased holds with a variant are released; the lease set is given back unchanged |
| Expiry.SweepKeepsGap | src/main/java/com/example/ecommerce/worker/ReservationExpiryWorker.java:45-46 | for every variant, reserved drops by exactly what the released holds took off its unreleased total |
| Expiry.SweepPreservesValid | src/main/java/com/example/ecommerce/worker/ReservationExpiryWorker.java:41-53 | a sweep keeps the ledger invariant |
| Expiry.SweepIdempotent | src/main/java/com/example/ecommerce/worker/ReservationExpiryWorker.java:30-58 | a second sweep at the same instant changes nothing |
| Expiry.SweepClearsExpired | src/main/java/com/example/ecommerce/worker/ReservationExpiryWorker.java:39-53 | in a store keeping the ledger invariant, no expired hold remains unreleased after a sweep |
| Categories.NodeMap | src/main/java/com/example/ecommerce/controller/CategoryController.java:30-32 | one node per category id, holding the fields of the last category with that id |
| Categories.VisitOrder | src/main/java/com/example/ecommerce/controller/CategoryController.java:33 | visits each node once |
| Categories.VisitOrderComplete | src/main/java/com/example/ecommerce/controller/CategoryController.java:33 | every category id is visited |
| Categories.Attach | src/main/java/com/example/ecommerce/controller/CategoryController.java:33-39 | the roots are the visited nodes without a present parent; a node's children are the visited nodes naming it as parent; no list repeats a node |
| Categories.ListCategories | src/main/java/com/example/ecommerce/controller/CategoryController.java:25-41 | one node per id with the last category's fields; roots are the nodes whose parent is null or absent; each node's children are the nodes naming it; no duplicates |
| Categories.NodeCopiesFields | src/main/java/com/example/ecommerce/controller/CategoryController.java:78-83 | a node carries its category's id, name, slug and parent id unchanged |
| Categories.RootIff | src/main/java/com/example/ecommerce/controller/CategoryController.java:34-38 | a node is a root iff its category's parent id is null or names no listed category |
| Categories.ChildIff | src/main/java/com/example/ecommerce/controller/CategoryController.java:35 | a node is among p's children iff p is listed and its category names p as parent |
| Categories.ExactlyOnce | src/main/java/com/example/ecommerce/controller/CategoryController.java:33-39 | every node is either a root and in no children list, or in exactly one children list |
| Categories.LastDuplicateWins | src/main/java/com/example/ecommerce/controller/CategoryController.java:30-32 | a later category with a repeated id replaces the earlier one's node |
| Categories.SelfParentIsOwnChild | src/main/java/com/example/ecommerce/controller/CategoryController.java:34-35 | a category that is its own parent is in its own children and never a root |
| Categories.SmallTree | src/main/java/com/example/ecommerce/controller/CategoryController.java:25-41 | a root with one child plus an orphan: roots [1, 3], children of 1 are [2] |

## Left out

- Strings are compared with ASCII-only case folding; Java's full Unicode `equalsIgnoreCase` is not modelled.
- Java `int`/`long` overflow of quantities, stock and usage counters is not modelled; integers are unbounded.
- Prices are exact `real`s; `double` rounding is not modelled.
- The expiry lease is a set of held minute numbers (`now / 60`); the Redis key format, its one-minute TTL, and a null answer from `setIfAbsent` (which lets the sweep proceed) are not modelled.
- The discount audit trail is stored as a sequence, not as JSON; the serialisation fallback to `toString` and the JSON parse failure while counting usage at checkout are not modelled.
- The category map's iteration order is unspecified in Java; the model visits ids in order of first appearance and states the tree by membership, not by list order.
- A self-parented category makes the returned node contain itself; serialising that response is outside the model.
- The clock is read once per transaction in the model. The source reads it again and again: twice in `addItemToCart`, once per hold in the resize loop of `updateCartItemQuantity` (every touched hold gets the one `now + 900`), and twice in the expiry sweep (the lease minute and the expiry cut-off use one `now`).
- A cart's `userId` is never null in the model, so the per-user cap always has a user id during add.
- A null `cartItemId` on a reservation makes the item lookup fail at checkout; it is modelled as `CartItemNotFound`.
- Locking, concurrent transactions and the scheduler are not modelled; every transaction is atomic. `Checkout.SequentialCheckoutsNeverOversell` replays the concurrency test's scenario sequentially, with holds linked to items of the cart.
- Logging is not modelled.
- `Pricing.ActiveValidRules` keeps the rules in store order. The query behind `findActiveValidRules` has no ORDER BY, so the database may return them in any order. Within a pass the order matters: on price 100, a 10% rule then a flat-5 rule give 85, but the other order gives 85.5. The model fixes one order.
- `findExpiredUnreleased` and `findByCartItemIdAndNotReleased` return rows in id order in the model; the repository interfaces declaring them are not part of this model.
- `CartService.AddItemToCart` quotes against the store before the reserve; `CartService.QuoteIgnoresReservedCount` shows that the quote is the same.
- The `Category` entity is not part of this model; only the four fields the controller reads are modelled.
- CRUD endpoints, authentication and HTTP mapping are not modelled.
