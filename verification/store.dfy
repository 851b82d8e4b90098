/** The persistent store the transactions run against: one record type per
    table, the store itself, the aggregate queries the services issue, and
    the ledger invariant every transaction keeps. */
module Store {
  import opened Types

  /** Catalogue entry; only the fields pricing reads. */
  datatype Product = Product(basePrice: real, categoryId: Option<Id>)

  /** A sellable unit with its stock ledger. */
  datatype Variant = Variant(productId: Id, stock: int, reserved: int, priceAdjustment: real)

  /** A time-bounded hold on `quantity` units of a variant. `released` is the
      end-of-life marker; reservations are never deleted. */
  datatype Reservation = Reservation(
    variantId: Id,
    cartItemId: Option<Id>,
    quantity: int,
    expiresAt: int,
    released: bool)

  /** One entry of a cart item's discount audit trail. */
  datatype Applied = Applied(ruleId: Option<Id>, kind: string, amount: real)

  /** A line item whose `unitPrice` and `discounts` are frozen when it is added. */
  datatype CartItem = CartItem(
    cartId: Id,
    variantId: Id,
    quantity: int,
    unitPrice: real,
    discounts: seq<Applied>,
    subtotal: real,
    snapshotAt: int)

  datatype Cart = Cart(userId: Id, status: string)

  /** A discount policy. Every column except `id` is nullable in the table;
      a null `active` flag is treated as false wherever it is read. */
  datatype PricingRule = PricingRule(
    id: Id,
    kind: Option<string>,
    minQuantity: Option<int>,
    percentage: Option<real>,
    flatAmount: Option<real>,
    userTier: Option<string>,
    promoCode: Option<string>,
    targetType: Option<string>,
    targetId: Option<Id>,
    startAt: Option<int>,
    endAt: Option<int>,
    usageLimit: Option<int>,
    usagePerUser: Option<int>,
    active: bool)

  /** One row of the rule-usage table, unique per `(ruleId, userId)`. */
  datatype UsageRow = UsageRow(ruleId: Id, userId: Id, usedCount: int)

  datatype Order = Order(cartId: Id, total: real)

  /** The whole store. Reservation ids are positions in `reservations`;
      `nextItemId` is the identity counter of the cart-item table. */
  datatype State = State(
    products: map<Id, Product>,
    variants: map<Id, Variant>,
    reservations: seq<Reservation>,
    items: map<Id, CartItem>,
    nextItemId: Id,
    carts: map<Id, Cart>,
    rules: seq<PricingRule>,
    usage: seq<UsageRow>,
    orders: seq<Order>)

  // ---------------------------------------------------------------------
  // Holds counted against a variant

  /** What a reservation contributes to variant `v`'s reserved count. */
  function Contribution(r: Reservation, v: Id): int {
    if !r.released && r.variantId == v then r.quantity else 0
  }

  /** Total quantity of the unreleased reservations of variant `v`. */
  function ActiveSum(rs: seq<Reservation>, v: Id): int {
    if |rs| == 0 then 0
    else ActiveSum(rs[..|rs| - 1], v) + Contribution(rs[|rs| - 1], v)
  }

  lemma {:induction false} ActiveSumUpdate(rs: seq<Reservation>, i: int, r: Reservation, v: Id)
    requires 0 <= i < |rs|
    ensures ActiveSum(rs[i := r], v) == ActiveSum(rs, v) - Contribution(rs[i], v) + Contribution(r, v)
    decreases |rs|
  {
    var n := |rs| - 1;
    if i == n {
      assert rs[i := r][..n] == rs[..n];
    } else {
      assert rs[i := r][..n] == rs[..n][i := r];
      ActiveSumUpdate(rs[..n], i, r, v);
    }
  }

  lemma ActiveSumAppend(rs: seq<Reservation>, r: Reservation, v: Id)
    ensures ActiveSum(rs + [r], v) == ActiveSum(rs, v) + Contribution(r, v)
  {
    assert (rs + [r])[..|rs|] == rs;
  }

  /** Holds of non-negative size add up to a non-negative reserved count. */
  lemma {:induction false} ActiveSumNonNegative(rs: seq<Reservation>, v: Id)
    requires forall i :: 0 <= i < |rs| && !rs[i].released ==> rs[i].quantity >= 0
    ensures ActiveSum(rs, v) >= 0
    decreases |rs|
  {
    if |rs| > 0 {
      ActiveSumNonNegative(rs[..|rs| - 1], v);
    }
  }

  // ---------------------------------------------------------------------
  // Holds owned by a cart item

  predicate LinkedActive(r: Reservation, item: Id) {
    !r.released && r.cartItemId == Some(item)
  }

  predicate InRange(rs: seq<Reservation>, ids: seq<Id>) {
    forall k :: 0 <= k < |ids| ==> 0 <= ids[k] < |rs|
  }

  predicate Ascending(ids: seq<Id>) {
    forall k, l :: 0 <= k < l < |ids| ==> ids[k] < ids[l]
  }

  /** The non-released reservations linked to a cart item, in id order
      (the repository query `findByCartItemIdAndNotReleased`). */
  function ActiveFor(rs: seq<Reservation>, item: Id): (ids: seq<Id>)
    ensures InRange(rs, ids) && Ascending(ids)
    ensures forall k :: 0 <= k < |ids| ==> LinkedActive(rs[ids[k]], item)
    ensures forall i :: 0 <= i < |rs| && LinkedActive(rs[i], item) ==> i in ids
  {
    if |rs| == 0 then []
    else
      var n := |rs| - 1;
      var earlier := ActiveFor(rs[..n], item);
      assert forall i :: 0 <= i < n ==> rs[..n][i] == rs[i];
      earlier + (if LinkedActive(rs[n], item) then [n] else [])
  }

  /** Total quantity of the reservations at positions `ids`. */
  function SumQty(rs: seq<Reservation>, ids: seq<Id>): int
    requires InRange(rs, ids)
  {
    if |ids| == 0 then 0 else rs[ids[0]].quantity + SumQty(rs, ids[1..])
  }

  // ---------------------------------------------------------------------
  // Rule-usage counters

  predicate Counts(row: UsageRow, rule: Id, user: Option<Id>) {
    row.ruleId == rule && (user.None? || row.userId == user.value)
  }

  /** `COALESCE(SUM(usedCount), 0)` over the rows of `rule`, and of `user`
      when one is given: `SumUsage(rows, r, None)` is the global usage query
      and `SumUsage(rows, r, Some(u))` the per-user one. */
  function SumUsage(rows: seq<UsageRow>, rule: Id, user: Option<Id>): int {
    if |rows| == 0 then 0
    else
      var last := rows[|rows| - 1];
      SumUsage(rows[..|rows| - 1], rule, user) + (if Counts(last, rule, user) then last.usedCount else 0)
  }

  lemma {:induction false} SumUsageUpdate(rows: seq<UsageRow>, i: int, row: UsageRow, rule: Id, user: Option<Id>)
    requires 0 <= i < |rows|
    ensures SumUsage(rows[i := row], rule, user)
         == SumUsage(rows, rule, user)
            - (if Counts(rows[i], rule, user) then rows[i].usedCount else 0)
            + (if Counts(row, rule, user) then row.usedCount else 0)
    decreases |rows|
  {
    var n := |rows| - 1;
    if i == n {
      assert rows[i := row][..n] == rows[..n];
    } else {
      assert rows[i := row][..n] == rows[..n][i := row];
      SumUsageUpdate(rows[..n], i, row, rule, user);
    }
  }

  lemma SumUsageAppend(rows: seq<UsageRow>, row: UsageRow, rule: Id, user: Option<Id>)
    ensures SumUsage(rows + [row], rule, user)
         == SumUsage(rows, rule, user) + (if Counts(row, rule, user) then row.usedCount else 0)
  {
    assert (rows + [row])[..|rows|] == rows;
  }

  // ---------------------------------------------------------------------
  // The ledger invariant

  /** Every variant's reserved count is the total of its unreleased holds and
      never exceeds its stock. */
  predicate LedgerConsistent(s: State) {
    forall v :: v in s.variants ==>
      s.variants[v].reserved == ActiveSum(s.reservations, v) && s.variants[v].reserved <= s.variants[v].stock
  }

  /** Every unreleased hold belongs to an existing cart item of the same
      variant and has exactly that item's quantity. */
  predicate HoldsLinked(s: State) {
    forall i :: 0 <= i < |s.reservations| && !s.reservations[i].released ==>
      var r := s.reservations[i];
      && r.variantId in s.variants
      && r.cartItemId.Some?
      && r.cartItemId.value in s.items
      && s.items[r.cartItemId.value].variantId == r.variantId
      && s.items[r.cartItemId.value].quantity == r.quantity
  }

  /** No cart item owns two unreleased holds. */
  predicate OneHoldPerItem(s: State) {
    forall i, j ::
      (&& 0 <= i < |s.reservations| && 0 <= j < |s.reservations|
       && !s.reservations[i].released && !s.reservations[j].released
       && s.reservations[i].cartItemId == s.reservations[j].cartItemId) ==> i == j
  }

  /** Item quantities are positive and every item id, live or referenced by a
      reservation, was issued by the identity counter. */
  predicate ItemsIssued(s: State) {
    && (forall c :: c in s.items ==> s.items[c].quantity > 0 && c < s.nextItemId)
    && (forall i :: 0 <= i < |s.reservations| && s.reservations[i].cartItemId.Some? ==>
          s.reservations[i].cartItemId.value < s.nextItemId)
  }

  predicate Valid(s: State) {
    LedgerConsistent(s) && HoldsLinked(s) && OneHoldPerItem(s) && ItemsIssued(s)
  }

  /** The documented variant invariant `0 <= reserved <= stock`. */
  lemma ValidBounds(s: State, v: Id)
    requires Valid(s) && v in s.variants
    ensures 0 <= s.variants[v].reserved <= s.variants[v].stock
  {
    var rs := s.reservations;
    forall i | 0 <= i < |rs| && !rs[i].released
      ensures rs[i].quantity >= 0
    {
      assert s.items[rs[i].cartItemId.value].quantity > 0;
    }
    ActiveSumNonNegative(rs, v);
  }

  /** In a valid store an item owns no hold, or exactly one whose variant and
      quantity are the item's. */
  lemma ValidHoldOfItem(s: State, c: Id)
    requires Valid(s)
    ensures var ids := ActiveFor(s.reservations, c);
      || ids == []
      || (&& |ids| == 1
          && c in s.items
          && s.reservations[ids[0]].variantId == s.items[c].variantId
          && s.reservations[ids[0]].quantity == s.items[c].quantity
          && s.items[c].variantId in s.variants)
  {
    var rs := s.reservations;
    var ids := ActiveFor(rs, c);
    forall k | 0 <= k < |ids|
      ensures ids[k] == ids[0] && c in s.items
    {
      assert LinkedActive(rs[ids[k]], c) && LinkedActive(rs[ids[0]], c);
    }
    AscendingConstantIsShort(ids);
    assert |ids| > 0 ==> rs[ids[0]].cartItemId == Some(c);
  }

  lemma AscendingConstantIsShort(ids: seq<Id>)
    requires Ascending(ids)
    requires forall k :: 0 <= k < |ids| ==> ids[k] == ids[0]
    ensures |ids| <= 1
  {
    var first := if |ids| > 0 then ids[0] else 0;
    var last := if |ids| > 0 then ids[|ids| - 1] else 0;
  }
}
