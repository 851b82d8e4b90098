/** Checkout: a batch of reservation ids is turned into stock decrements,
    the items' frozen prices are summed into one order, and every discount
    the items carry bumps its rule's usage counter for the cart's owner.
    The batch is one transaction: the first failing reservation aborts all
    of it. */
module Checkout {
  import opened Types
  import opened Store
  import opened Pricing

  // ---------------------------------------------------------------------
  // Rule-usage counters

  predicate RowOf(row: UsageRow, rule: Id, user: Id) {
    row.ruleId == rule && row.userId == user
  }

  /** `findByRuleIdAndUserId`: position of the first row of `(rule, user)`,
      or `|rows|` when there is none. */
  function FindRow(rows: seq<UsageRow>, rule: Id, user: Id): (i: nat)
    ensures i <= |rows|
    ensures i < |rows| ==> RowOf(rows[i], rule, user)
    ensures forall j :: 0 <= j < i ==> !RowOf(rows[j], rule, user)
  {
    if |rows| == 0 then 0
    else if RowOf(rows[0], rule, user) then 0
    else 1 + FindRow(rows[1..], rule, user)
  }

  /** One use of `rule` by `user`: the existing row's count goes up by one,
      or a row is created at zero and counted once. */
  function IncrementUsage(rows: seq<UsageRow>, rule: Id, user: Id): seq<UsageRow> {
    var i := FindRow(rows, rule, user);
    if i < |rows| then rows[i := rows[i].(usedCount := rows[i].usedCount + 1)]
    else rows + [UsageRow(rule, user, 0 + 1)]
  }

  /** Whether a use of `rule` by `user` counts in the sum for `(r, u)`. */
  function Hit(rule: Id, user: Id, r: Id, u: Option<Id>): int {
    if rule == r && (u.None? || u.value == user) then 1 else 0
  }

  /** Both usage queries see exactly one more use of `(rule, user)` and no
      change anywhere else. */
  lemma IncrementUsageCounts(rows: seq<UsageRow>, rule: Id, user: Id, r: Id, u: Option<Id>)
    ensures SumUsage(IncrementUsage(rows, rule, user), r, u) == SumUsage(rows, r, u) + Hit(rule, user, r, u)
  {
    var i := FindRow(rows, rule, user);
    if i < |rows| {
      SumUsageUpdate(rows, i, rows[i].(usedCount := rows[i].usedCount + 1), r, u);
    } else {
      SumUsageAppend(rows, UsageRow(rule, user, 1), r, u);
    }
  }

  /** Number of audit entries naming `rule`. */
  function Hits(ds: seq<Applied>, rule: Id): nat {
    if |ds| == 0 then 0
    else (if ds[0].ruleId == Some(rule) then 1 else 0) + Hits(ds[1..], rule)
  }

  /** `updateRuleUsageFromCartItem`: one use per audit entry that names a
      rule, whatever the item's quantity; entries without a rule are
      skipped. */
  function BumpUsage(rows: seq<UsageRow>, ds: seq<Applied>, user: Id): seq<UsageRow>
    decreases |ds|
  {
    if |ds| == 0 then rows
    else
      var rows' := if ds[0].ruleId.Some? then IncrementUsage(rows, ds[0].ruleId.value, user) else rows;
      BumpUsage(rows', ds[1..], user)
  }

  /** Each usage sum grows by the number of the item's entries naming the
      rule, counted for the cart's owner only. */
  lemma {:induction false} BumpUsageCounts(rows: seq<UsageRow>, ds: seq<Applied>, user: Id, r: Id, u: Option<Id>)
    ensures SumUsage(BumpUsage(rows, ds, user), r, u)
         == SumUsage(rows, r, u) + (if u.None? || u.value == user then Hits(ds, r) else 0)
    decreases |ds|
  {
    if |ds| > 0 {
      var rows' := if ds[0].ruleId.Some? then IncrementUsage(rows, ds[0].ruleId.value, user) else rows;
      if ds[0].ruleId.Some? {
        IncrementUsageCounts(rows, ds[0].ruleId.value, user, r, u);
      }
      BumpUsageCounts(rows', ds[1..], user, r, u);
    }
  }

  // ---------------------------------------------------------------------
  // One reservation of the batch

  /** The reservation exists, is unreleased, and is linked to an existing
      item of the cart whose variant exists. */
  predicate Checkable(s: State, cartId: Id, rid: Id) {
    && 0 <= rid < |s.reservations|
    && !s.reservations[rid].released
    && s.reservations[rid].cartItemId.Some?
    && s.reservations[rid].cartItemId.value in s.items
    && s.items[s.reservations[rid].cartItemId.value].cartId == cartId
    && s.reservations[rid].variantId in s.variants
  }

  /** The item a reservation is linked to. */
  function ItemOf(s: State, rid: Id): CartItem
    requires 0 <= rid < |s.reservations|
    requires s.reservations[rid].cartItemId.Some? && s.reservations[rid].cartItemId.value in s.items
  {
    s.items[s.reservations[rid].cartItemId.value]
  }

  /** One iteration of the checkout loop: returns the new store and the
      line's amount, the item's frozen unit price times the item's quantity
      (not the reservation's). */
  function CheckoutStep(s: State, cartId: Id, user: Id, rid: Id): (r: Result<(State, real)>)
    ensures !(0 <= rid < |s.reservations|) ==> r == Failure(ReservationNotFound)
    ensures 0 <= rid < |s.reservations| && s.reservations[rid].released ==> r == Failure(AlreadyReleased)
    ensures 0 <= rid < |s.reservations| && !s.reservations[rid].released
            && (s.reservations[rid].cartItemId.None? || s.reservations[rid].cartItemId.value !in s.items) ==>
      r == Failure(CartItemNotFound)
    ensures 0 <= rid < |s.reservations| && !s.reservations[rid].released
            && s.reservations[rid].cartItemId.Some? && s.reservations[rid].cartItemId.value in s.items
            && ItemOf(s, rid).cartId != cartId ==>
      r == Failure(WrongCart)
    ensures 0 <= rid < |s.reservations| && !s.reservations[rid].released
            && s.reservations[rid].cartItemId.Some? && s.reservations[rid].cartItemId.value in s.items
            && ItemOf(s, rid).cartId == cartId && s.reservations[rid].variantId !in s.variants ==>
      r == Failure(VariantNotFound)
    ensures Checkable(s, cartId, rid) ==>
      && ((r == Failure(InsufficientStock))
            <==> s.variants[s.reservations[rid].variantId].stock < s.reservations[rid].quantity)
      && (r.Success? <==> s.reservations[rid].quantity <= s.variants[s.reservations[rid].variantId].stock)
    ensures r.Success? ==>
      var (t, amount) := r.value;
      var res := s.reservations[rid];
      var v := s.variants[res.variantId];
      var item := ItemOf(s, rid);
      && Checkable(s, cartId, rid)
      && res.quantity <= v.stock
      && t.variants == s.variants[res.variantId := v.(stock := v.stock - res.quantity, reserved := v.reserved - res.quantity)]
      && t.reservations == s.reservations[rid := res.(released := true)]
      && t.usage == BumpUsage(s.usage, item.discounts, user)
      && amount == LineTotal(item.unitPrice, item.quantity)
      && t.items == s.items && t.carts == s.carts && t.products == s.products
      && t.rules == s.rules && t.orders == s.orders && t.nextItemId == s.nextItemId
  {
    if !(0 <= rid < |s.reservations|) then Failure(ReservationNotFound)
    else
      var res := s.reservations[rid];
      if res.released then Failure(AlreadyReleased)
      else if res.cartItemId.None? || res.cartItemId.value !in s.items then Failure(CartItemNotFound)
      else
        var item := s.items[res.cartItemId.value];
        if item.cartId != cartId then Failure(WrongCart)
        else if res.variantId !in s.variants then Failure(VariantNotFound)
        else
          var v := s.variants[res.variantId];
          if v.stock < res.quantity then Failure(InsufficientStock)
          else
            Success((s.(variants := s.variants[res.variantId := v.(stock := v.stock - res.quantity,
                                                                   reserved := v.reserved - res.quantity)],
                        reservations := s.reservations[rid := res.(released := true)],
                        usage := BumpUsage(s.usage, item.discounts, user)),
                     LineTotal(item.unitPrice, item.quantity)))
  }

  // ---------------------------------------------------------------------
  // Reference totals of a batch, read off the store before checkout

  /** The amount a reservation contributes to the order. */
  function LineAmount(s: State, rid: Id): real {
    if 0 <= rid < |s.reservations| && s.reservations[rid].cartItemId.Some?
       && s.reservations[rid].cartItemId.value in s.items
    then LineTotal(ItemOf(s, rid).unitPrice, ItemOf(s, rid).quantity)
    else 0.0
  }

  function OrderTotal(s: State, rids: seq<Id>): real {
    if |rids| == 0 then 0.0 else LineAmount(s, rids[0]) + OrderTotal(s, rids[1..])
  }

  /** Units of variant `v` the batch takes out of stock. */
  function Drawn(s: State, rids: seq<Id>, v: Id): int {
    if |rids| == 0 then 0
    else
      var here := if 0 <= rids[0] < |s.reservations| && s.reservations[rids[0]].variantId == v
                  then s.reservations[rids[0]].quantity else 0;
      here + Drawn(s, rids[1..], v)
  }

  /** Uses of `rule` the batch records: one per audit entry naming it on each
      reservation's item. */
  function RuleHits(s: State, rids: seq<Id>, rule: Id): int {
    if |rids| == 0 then 0
    else
      var here := if 0 <= rids[0] < |s.reservations| && s.reservations[rids[0]].cartItemId.Some?
                     && s.reservations[rids[0]].cartItemId.value in s.items
                  then Hits(ItemOf(s, rids[0]).discounts, rule) else 0;
      here + RuleHits(s, rids[1..], rule)
  }

  /** Two stores with the same items and the same reservation links,
      quantities and variants: everything the reference totals read. */
  predicate SameLinks(s: State, t: State) {
    && t.items == s.items
    && |t.reservations| == |s.reservations|
    && forall i :: 0 <= i < |s.reservations| ==>
         && t.reservations[i].cartItemId == s.reservations[i].cartItemId
         && t.reservations[i].quantity == s.reservations[i].quantity
         && t.reservations[i].variantId == s.reservations[i].variantId
  }

  lemma {:induction false} TotalsReadLinks(s: State, t: State, rids: seq<Id>, v: Id, rule: Id)
    requires SameLinks(s, t)
    ensures OrderTotal(t, rids) == OrderTotal(s, rids)
    ensures Drawn(t, rids, v) == Drawn(s, rids, v)
    ensures RuleHits(t, rids, rule) == RuleHits(s, rids, rule)
    decreases |rids|
  {
    if |rids| > 0 {
      TotalsReadLinks(s, t, rids[1..], v, rule);
    }
  }

  // ---------------------------------------------------------------------
  // The batch

  predicate Distinct(rids: seq<Id>) {
    forall k, l :: 0 <= k < l < |rids| ==> rids[k] != rids[l]
  }

  /** The checkout loop, in list order; the first failure aborts the batch.
      On success: the new store and the order total. */
  function CheckoutLoop(s: State, cartId: Id, user: Id, rids: seq<Id>): (r: Result<(State, real)>)
    ensures r.Success? ==>
      var (t, total) := r.value;
      && SameLinks(s, t)
      && Distinct(rids)
      && (forall k :: 0 <= k < |rids| ==> Checkable(s, cartId, rids[k]) && t.reservations[rids[k]].released)
      && (forall i :: 0 <= i < |s.reservations| && i !in rids ==> t.reservations[i] == s.reservations[i])
      && total == OrderTotal(s, rids)
      && t.variants.Keys == s.variants.Keys
      && (forall w :: w in s.variants ==>
            t.variants[w].productId == s.variants[w].productId
            && t.variants[w].priceAdjustment == s.variants[w].priceAdjustment)
      && t.carts == s.carts && t.products == s.products && t.rules == s.rules
      && t.orders == s.orders && t.nextItemId == s.nextItemId
    decreases |rids|
  {
    if |rids| == 0 then Success((s, 0.0))
    else
      match CheckoutStep(s, cartId, user, rids[0])
      case Failure(e) => Failure(e)
      case Success(step) =>
        var (s1, amount) := step;
        match CheckoutLoop(s1, cartId, user, rids[1..])
        case Failure(e) => Failure(e)
        case Success(rest) =>
          LoopStepFacts(s, s1, rest.0, cartId, rids);
          TotalsReadLinks(s, s1, rids[1..], 0, 0);
          Success((rest.0, amount + rest.1))
  }

  /** How one step and the rest of the batch compose into the batch's
      contract. */
  lemma LoopStepFacts(s: State, s1: State, t: State, cartId: Id, rids: seq<Id>)
    requires |rids| > 0 && Checkable(s, cartId, rids[0])
    requires s1.items == s.items
    requires s1.reservations == s.reservations[rids[0] := s.reservations[rids[0]].(released := true)]
    requires SameLinks(s1, t)
    requires forall k :: 0 <= k < |rids[1..]| ==> Checkable(s1, cartId, rids[1..][k]) && t.reservations[rids[1..][k]].released
    requires forall i :: 0 <= i < |s1.reservations| && i !in rids[1..] ==> t.reservations[i] == s1.reservations[i]
    requires Distinct(rids[1..])
    requires s1.variants.Keys == s.variants.Keys
    ensures SameLinks(s, t)
    ensures Distinct(rids)
    ensures forall k :: 0 <= k < |rids| ==> Checkable(s, cartId, rids[k]) && t.reservations[rids[k]].released
    ensures forall i :: 0 <= i < |s.reservations| && i !in rids ==> t.reservations[i] == s.reservations[i]
  {
    var h := rids[0];
    var tail := rids[1..];
    forall k | 0 <= k < |tail|
      ensures tail[k] != h
    {
      assert Checkable(s1, cartId, tail[k]);
    }
    forall k | 0 <= k < |rids|
      ensures Checkable(s, cartId, rids[k]) && t.reservations[rids[k]].released
    {
      if k > 0 {
        assert rids[k] == tail[k - 1];
        assert Checkable(s1, cartId, tail[k - 1]);
      } else {
        assert h !in tail;
      }
    }
  }

  /** `checkoutCart`: on success the cart is marked checked out and one order
      holding the batch total is appended. */
  function CheckoutCart(s: State, cartId: Id, rids: seq<Id>): (r: Result<State>)
    ensures cartId !in s.carts ==> r == Failure(CartNotFound)
    ensures cartId in s.carts ==>
      (r.Failure? <==> CheckoutLoop(s, cartId, s.carts[cartId].userId, rids).Failure?)
    ensures r.Success? ==>
      var t := r.value;
      && cartId in s.carts
      && t.carts == s.carts[cartId := s.carts[cartId].(status := "CHECKED_OUT")]
      && t.orders == s.orders + [Order(cartId, OrderTotal(s, rids))]
      && SameLinks(s, t)
      && Distinct(rids)
      && (forall k :: 0 <= k < |rids| ==> Checkable(s, cartId, rids[k]) && t.reservations[rids[k]].released)
      && (forall i :: 0 <= i < |s.reservations| && i !in rids ==> t.reservations[i] == s.reservations[i])
    ensures r.Success? ==>
      var done := CheckoutLoop(s, cartId, s.carts[cartId].userId, rids);
      && done.Success?
      && r.value.variants == done.value.0.variants
      && r.value.reservations == done.value.0.reservations
      && r.value.usage == done.value.0.usage
      && r.value.items == done.value.0.items
  {
    if cartId !in s.carts then Failure(CartNotFound)
    else
      var cart := s.carts[cartId];
      match CheckoutLoop(s, cartId, cart.userId, rids)
      case Failure(e) => Failure(e)
      case Success(done) =>
        var (t, total) := done;
        Success(t.(carts := t.carts[cartId := cart.(status := "CHECKED_OUT")],
                   orders := t.orders + [Order(cartId, total)]))
  }

  // ---------------------------------------------------------------------
  // Stock and usage accounting of a batch

  /** Per variant, the batch lowers stock and reserved by the units it
      draws. */
  lemma {:induction false} LoopDrawsStock(s: State, cartId: Id, user: Id, rids: seq<Id>, v: Id)
    requires CheckoutLoop(s, cartId, user, rids).Success?
    requires v in s.variants
    ensures
      var t := CheckoutLoop(s, cartId, user, rids).value.0;
      && t.variants[v].stock == s.variants[v].stock - Drawn(s, rids, v)
      && t.variants[v].reserved == s.variants[v].reserved - Drawn(s, rids, v)
    decreases |rids|
  {
    if |rids| > 0 {
      var (s1, _) := CheckoutStep(s, cartId, user, rids[0]).value;
      LoopDrawsStock(s1, cartId, user, rids[1..], v);
      TotalsReadLinks(s, s1, rids[1..], v, 0);
    }
  }

  /** Every usage sum grows by the batch's uses of the rule, for the cart's
      owner only. */
  lemma {:induction false} LoopCountsUsage(s: State, cartId: Id, user: Id, rids: seq<Id>, rule: Id, u: Option<Id>)
    requires CheckoutLoop(s, cartId, user, rids).Success?
    ensures
      var t := CheckoutLoop(s, cartId, user, rids).value.0;
      SumUsage(t.usage, rule, u) == SumUsage(s.usage, rule, u) + (if u.None? || u.value == user then RuleHits(s, rids, rule) else 0)
    decreases |rids|
  {
    if |rids| > 0 {
      var (s1, _) := CheckoutStep(s, cartId, user, rids[0]).value;
      LoopCountsUsage(s1, cartId, user, rids[1..], rule, u);
      TotalsReadLinks(s, s1, rids[1..], 0, rule);
      BumpUsageCounts(s.usage, ItemOf(s, rids[0]).discounts, user, rule, u);
    }
  }

  /** A reservation id listed twice aborts the batch: the first occurrence
      released it. */
  lemma DuplicateIdFails(s: State, cartId: Id, rids: seq<Id>, k: int, l: int)
    requires 0 <= k < l < |rids| && rids[k] == rids[l]
    ensures CheckoutCart(s, cartId, rids).Failure?
  {
  }

  // ---------------------------------------------------------------------
  // The ledger invariant is kept, and what makes a batch succeed

  /** An unreleased hold is covered by its variant's reserved count when all
      unreleased holds are non-negative. */
  lemma {:induction false} ActiveSumCoversHold(rs: seq<Reservation>, i: int)
    requires 0 <= i < |rs| && !rs[i].released
    requires forall j :: 0 <= j < |rs| && !rs[j].released ==> rs[j].quantity >= 0
    ensures ActiveSum(rs, rs[i].variantId) >= rs[i].quantity
    decreases |rs|
  {
    var n := |rs| - 1;
    if i == n {
      ActiveSumNonNegative(rs[..n], rs[i].variantId);
    } else {
      ActiveSumCoversHold(rs[..n], i);
    }
  }

  /** In a valid store a checkable hold is covered by stock, so the stock
      check of a step never fires. */
  lemma ValidStepSucceeds(s: State, cartId: Id, user: Id, rid: Id)
    requires Valid(s) && Checkable(s, cartId, rid)
    ensures CheckoutStep(s, cartId, user, rid).Success?
  {
    var rs := s.reservations;
    forall j | 0 <= j < |rs| && !rs[j].released
      ensures rs[j].quantity >= 0
    {
      assert s.items[rs[j].cartItemId.value].quantity > 0;
    }
    ActiveSumCoversHold(rs, rid);
  }

  lemma StepPreservesValid(s: State, cartId: Id, user: Id, rid: Id)
    requires Valid(s)
    requires CheckoutStep(s, cartId, user, rid).Success?
    ensures Valid(CheckoutStep(s, cartId, user, rid).value.0)
  {
    var t := CheckoutStep(s, cartId, user, rid).value.0;
    var rs := s.reservations;
    var hold' := rs[rid].(released := true);
    forall w | w in t.variants
      ensures t.variants[w].reserved == ActiveSum(t.reservations, w) && t.variants[w].reserved <= t.variants[w].stock
    {
      ActiveSumUpdate(rs, rid, hold', w);
    }
    assert LedgerConsistent(t);
    assert HoldsLinked(t);
    assert OneHoldPerItem(t);
    assert ItemsIssued(t);
  }

  lemma {:induction false} LoopPreservesValid(s: State, cartId: Id, user: Id, rids: seq<Id>)
    requires Valid(s)
    requires CheckoutLoop(s, cartId, user, rids).Success?
    ensures Valid(CheckoutLoop(s, cartId, user, rids).value.0)
    decreases |rids|
  {
    if |rids| > 0 {
      StepPreservesValid(s, cartId, user, rids[0]);
      var s1 := CheckoutStep(s, cartId, user, rids[0]).value.0;
      LoopPreservesValid(s1, cartId, user, rids[1..]);
    }
  }

  lemma CheckoutPreservesValid(s: State, cartId: Id, rids: seq<Id>)
    requires Valid(s)
    requires CheckoutCart(s, cartId, rids).Success?
    ensures Valid(CheckoutCart(s, cartId, rids).value)
  {
    LoopPreservesValid(s, cartId, s.carts[cartId].userId, rids);
  }

  /** In a valid store, a batch of distinct checkable holds goes through. */
  lemma {:induction false} ValidLoopSucceeds(s: State, cartId: Id, user: Id, rids: seq<Id>)
    requires Valid(s) && Distinct(rids)
    requires forall k :: 0 <= k < |rids| ==> Checkable(s, cartId, rids[k])
    ensures CheckoutLoop(s, cartId, user, rids).Success?
    decreases |rids|
  {
    if |rids| > 0 {
      var h := rids[0];
      ValidStepSucceeds(s, cartId, user, h);
      StepPreservesValid(s, cartId, user, h);
      var s1 := CheckoutStep(s, cartId, user, h).value.0;
      var tail := rids[1..];
      forall k | 0 <= k < |tail|
        ensures Checkable(s1, cartId, tail[k])
      {
        assert tail[k] == rids[k + 1] && rids[k + 1] != h;
        assert Checkable(s, cartId, rids[k + 1]);
      }
      ValidLoopSucceeds(s1, cartId, user, tail);
    }
  }

  /** In a valid store a checkout succeeds exactly when the cart exists and
      the batch lists distinct, unreleased holds of that cart's items. */
  lemma CheckoutSucceedsIff(s: State, cartId: Id, rids: seq<Id>)
    requires Valid(s)
    ensures CheckoutCart(s, cartId, rids).Success?
        <==> cartId in s.carts && Distinct(rids) && forall k :: 0 <= k < |rids| ==> Checkable(s, cartId, rids[k])
  {
    if cartId in s.carts && Distinct(rids) && forall k :: 0 <= k < |rids| ==> Checkable(s, cartId, rids[k]) {
      ValidLoopSucceeds(s, cartId, s.carts[cartId].userId, rids);
    }
  }

  /** Two single-hold checkouts of 3 units each against a stock of 5 (the
      reserved count seeded at 6): the first goes through, the second fails
      for lack of stock, and 2 units are left. */
  lemma SequentialCheckoutsNeverOversell()
    ensures
      var items := map[10 := CartItem(1, 7, 3, 1.0, [], 3.0, 0), 11 := CartItem(1, 7, 3, 1.0, [], 3.0, 0)];
      var s := State(map[], map[7 := Variant(1, 5, 6, 0.0)],
                     [Reservation(7, Some(10), 3, 900, false), Reservation(7, Some(11), 3, 900, false)],
                     items, 12, map[1 := Cart(4, "ACTIVE")], [], [], []);
      var first := CheckoutCart(s, 1, [0]);
      && first.Success?
      && first.value.variants[7].stock == 2
      && CheckoutCart(first.value, 1, [1]) == Failure(InsufficientStock)
  {
    var items := map[10 := CartItem(1, 7, 3, 1.0, [], 3.0, 0), 11 := CartItem(1, 7, 3, 1.0, [], 3.0, 0)];
    var s := State(map[], map[7 := Variant(1, 5, 6, 0.0)],
                   [Reservation(7, Some(10), 3, 900, false), Reservation(7, Some(11), 3, 900, false)],
                   items, 12, map[1 := Cart(4, "ACTIVE")], [], [], []);
    var step := CheckoutStep(s, 1, 4, 0);
    assert step.Success?;
    var s1 := step.value.0;
    assert s1.variants[7] == Variant(1, 2, 3, 0.0);
    assert [0][1..] == [];
    assert CheckoutLoop(s1, 1, 4, []) == Success((s1, 0.0));
    var first := CheckoutCart(s, 1, [0]);
    assert first.value.variants == s1.variants;
    assert CheckoutStep(first.value, 1, 4, 1) == Failure(InsufficientStock);
  }
}
