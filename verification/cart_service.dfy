/** The reservation manager: adding a line item reserves stock and snapshots
    its price, resizing moves the reserved count by the quantity difference
    and spreads it over the item's holds, removing releases the holds and
    deletes the item. Each operation is one transaction: it either fails and
    leaves the store as it was, or returns the new store. */
module CartService {
  import opened Types
  import opened Store
  import opened Pricing

  /** A hold lasts fifteen minutes from its last change. */
  const HoldSeconds := 900

  // ---------------------------------------------------------------------
  // Adding an item

  /** The quote the new line is priced with: the variant's product, the
      variant itself, and the cart owner as the user. */
  function QuoteForLine(s: State, now: int, cartId: Id, variantId: Id, quantity: int,
                        userTier: Option<string>, promoCode: Option<string>): Result<PriceResult>
    requires cartId in s.carts && variantId in s.variants
  {
    CalculatePrice(s, now, s.variants[variantId].productId, Some(variantId), quantity, userTier, promoCode,
                   Some(s.carts[cartId].userId))
  }

  /** The store shape a reserve produces: `hold` reserves the new
      item's quantity of its variant and links to the new id. */
  predicate ReservedNewItem(s: State, item: CartItem, hold: Reservation, t: State) {
    var vid := item.variantId;
    && vid in s.variants
    && hold == Reservation(vid, Some(s.nextItemId), item.quantity, hold.expiresAt, false)
    && t.variants == s.variants[vid := s.variants[vid].(reserved := s.variants[vid].reserved + item.quantity)]
    && t.reservations == s.reservations + [hold]
    && t.items == s.items[s.nextItemId := item]
    && t.nextItemId == s.nextItemId + 1
  }

  /** The reserve step of a priced line: the variant's reserved count rises
      by the quantity, a fresh hold for the whole quantity links to the next
      item id, and the item records the quote. */
  function ReserveLine(s: State, now: int, cartId: Id, variantId: Id, quantity: int, p: PriceResult): (r: (State, Id))
    requires variantId in s.variants
    ensures r.1 == s.nextItemId
    ensures ReservedNewItem(s, CartItem(cartId, variantId, quantity, p.finalUnitPrice, p.appliedRules, p.totalPrice, now),
                            Reservation(variantId, Some(r.1), quantity, now + HoldSeconds, false), r.0)
    ensures r.0.products == s.products && r.0.carts == s.carts && r.0.rules == s.rules
            && r.0.usage == s.usage && r.0.orders == s.orders
  {
    var v := s.variants[variantId];
    var id := s.nextItemId;
    var item := CartItem(cartId, variantId, quantity, p.finalUnitPrice, p.appliedRules, p.totalPrice, now);
    var hold := Reservation(variantId, Some(id), quantity, now + HoldSeconds, false);
    (s.(variants := s.variants[variantId := v.(reserved := v.reserved + quantity)],
        reservations := s.reservations + [hold],
        items := s.items[id := item],
        nextItemId := id + 1), id)
  }

  /** `addItemToCart`: fails on a missing cart or variant, on too little
      available stock, or with the quote's error; otherwise reserves the line
      with its quote. The quantity is not checked for being positive. */
  function AddItemToCart(s: State, now: int, cartId: Id, variantId: Id, quantity: int,
                         userTier: Option<string>, promoCode: Option<string>): (r: Result<(State, Id)>)
    ensures cartId !in s.carts ==> r == Failure(CartNotFound)
    ensures cartId in s.carts && variantId !in s.variants ==> r == Failure(VariantNotFound)
    ensures cartId in s.carts && variantId in s.variants
            && s.variants[variantId].stock - s.variants[variantId].reserved < quantity ==>
      r == Failure(InsufficientStock)
    ensures cartId in s.carts && variantId in s.variants
            && s.variants[variantId].stock - s.variants[variantId].reserved >= quantity ==>
      var quote := QuoteForLine(s, now, cartId, variantId, quantity, userTier, promoCode);
      && (r.Failure? <==> quote.Failure?)
      && (r.Failure? ==> r.error == quote.error)
      && (r.Success? ==> r.value == ReserveLine(s, now, cartId, variantId, quantity, quote.value))
  {
    if cartId !in s.carts then Failure(CartNotFound)
    else if variantId !in s.variants then Failure(VariantNotFound)
    else
      var v := s.variants[variantId];
      if v.stock - v.reserved < quantity then Failure(InsufficientStock)
      else
        match QuoteForLine(s, now, cartId, variantId, quantity, userTier, promoCode)
        case Failure(e) => Failure(e)
        case Success(p) => Success(ReserveLine(s, now, cartId, variantId, quantity, p))
  }

  /** The source quotes the line after raising the reserved count; quoting
      reads only the price adjustment, so the quote is the same as one taken
      before the reserve, which is the store `AddItemToCart` quotes against. */
  lemma QuoteIgnoresReservedCount(s: State, now: int, cartId: Id, variantId: Id, quantity: int,
                                  userTier: Option<string>, promoCode: Option<string>, reserved: int)
    requires cartId in s.carts && variantId in s.variants
    ensures
      var v := s.variants[variantId];
      var s' := s.(variants := s.variants[variantId := v.(reserved := reserved)]);
      QuoteForLine(s', now, cartId, variantId, quantity, userTier, promoCode)
        == QuoteForLine(s, now, cartId, variantId, quantity, userTier, promoCode)
  {
    var v := s.variants[variantId];
    var s' := s.(variants := s.variants[variantId := v.(reserved := reserved)]);
    QuoteReadsOnly(s, s', now, v.productId, Some(variantId), quantity, userTier, promoCode, Some(s.carts[cartId].userId));
  }

  // ---------------------------------------------------------------------
  // Spreading a resize over an item's holds

  function Min(a: int, b: int): int {
    if a <= b then a else b
  }

  /** One step of the distribution loop on the hold at `i`: a growth goes
      wholly to it; a shrink takes as much as it holds, up to what is left,
      and releases it when it reaches zero. Either way its expiry is
      extended. Returns the updated hold and the difference left over. */
  function ResizeHold(r: Reservation, remaining: int, expiresAt: int): (res: (Reservation, int))
    ensures res.0.quantity - r.quantity == remaining - res.1
    ensures res.0.variantId == r.variantId && res.0.cartItemId == r.cartItemId && res.0.expiresAt == expiresAt
    ensures remaining > 0 ==> res.1 == 0 && res.0.released == r.released
    ensures remaining < 0 && r.quantity >= 0 ==>
      && remaining <= res.1 <= 0
      && res.0.quantity >= 0
      && (res.1 < 0 ==> res.0.quantity == 0)
    ensures remaining < 0 ==> (res.0.released <==> r.released || res.0.quantity == 0)
  {
    if remaining > 0 then
      (r.(quantity := r.quantity + remaining, expiresAt := expiresAt), 0)
    else
      var decrease := Min(-remaining, r.quantity);
      var q := r.quantity - decrease;
      (r.(quantity := q, released := r.released || q == 0, expiresAt := expiresAt), remaining + decrease)
  }

  /** The distribution loop over the holds at positions `ids`, in order,
      stopping once nothing is left to distribute. */
  function Distribute(rs: seq<Reservation>, ids: seq<Id>, remaining: int, expiresAt: int): (res: (seq<Reservation>, int))
    requires InRange(rs, ids)
    ensures |res.0| == |rs|
    ensures forall i :: 0 <= i < |rs| && i !in ids ==> res.0[i] == rs[i]
    ensures remaining > 0 && |ids| > 0 ==>
      res == (rs[ids[0] := rs[ids[0]].(quantity := rs[ids[0]].quantity + remaining, expiresAt := expiresAt)], 0)
    decreases |ids|
  {
    if |ids| == 0 || remaining == 0 then (rs, remaining)
    else
      var step := ResizeHold(rs[ids[0]], remaining, expiresAt);
      Distribute(rs[ids[0] := step.0], ids[1..], step.1, expiresAt)
  }

  /** Holds of non-negative size at distinct positions: the shape the
      distribution loop needs to account for every unit it moves. */
  predicate DistinctSized(rs: seq<Reservation>, ids: seq<Id>) {
    && InRange(rs, ids)
    && (forall k, l :: 0 <= k < l < |ids| ==> ids[k] != ids[l])
    && (forall k :: 0 <= k < |ids| ==> rs[ids[k]].quantity >= 0)
  }

  lemma {:induction false} SumQtyNonNegative(rs: seq<Reservation>, ids: seq<Id>)
    requires InRange(rs, ids) && forall k :: 0 <= k < |ids| ==> rs[ids[k]].quantity >= 0
    ensures SumQty(rs, ids) >= 0
    decreases |ids|
  {
    if |ids| > 0 {
      SumQtyNonNegative(rs, ids[1..]);
    }
  }

  lemma {:induction false} SumQtyUpdateOutside(rs: seq<Reservation>, ids: seq<Id>, i: int, r: Reservation)
    requires InRange(rs, ids) && 0 <= i < |rs| && i !in ids
    ensures SumQty(rs[i := r], ids) == SumQty(rs, ids)
    decreases |ids|
  {
    if |ids| > 0 {
      SumQtyUpdateOutside(rs, ids[1..], i, r);
    }
  }

  /** The loop moves exactly the difference it consumed: the holds' total
      changes by `remaining - left`. A growth is consumed whole when there is
      a hold; a shrink is consumed whole when the holds cover it, and
      otherwise drains them all. */
  lemma {:induction false} DistributeMovesDifference(rs: seq<Reservation>, ids: seq<Id>, remaining: int, expiresAt: int)
    requires DistinctSized(rs, ids)
    ensures var (rs', left) := Distribute(rs, ids, remaining, expiresAt);
      && SumQty(rs', ids) == SumQty(rs, ids) + remaining - left
      && (remaining > 0 && |ids| > 0 ==> left == 0)
      && (remaining <= 0 ==> left == (if SumQty(rs, ids) >= -remaining then 0 else remaining + SumQty(rs, ids)))
    decreases |ids|
  {
    SumQtyNonNegative(rs, ids);
    if |ids| > 0 && remaining != 0 {
      var h := ids[0];
      var step := ResizeHold(rs[h], remaining, expiresAt);
      var rs1 := rs[h := step.0];
      var tail := ids[1..];
      assert h !in tail;
      assert InRange(rs1, tail);
      SumQtyUpdateOutside(rs, tail, h, step.0);
      assert SumQty(rs1, tail) == SumQty(rs, tail);
      SumQtyNonNegative(rs, tail);
      if remaining < 0 {
        assert DistinctSized(rs1, tail);
        DistributeMovesDifference(rs1, tail, step.1, expiresAt);
      } else {
        assert Distribute(rs1, tail, 0, expiresAt) == (rs1, 0);
      }
      var (rs', left) := Distribute(rs1, tail, step.1, expiresAt);
      assert SumQty(rs', ids) == rs'[h].quantity + SumQty(rs', tail);
      assert rs'[h] == step.0;
    }
  }

  /** What a shrink still owes when it reaches the `k`-th hold: the holds
      before it have given all they held, so the rest of the decrease, or
      nothing once they covered it. */
  function Owed(rs: seq<Reservation>, ids: seq<Id>, remaining: int, k: int): (owed: int)
    requires InRange(rs, ids) && 0 <= k <= |ids|
    ensures owed >= 0
  {
    var rest := -remaining - SumQty(rs, ids[..k]);
    if rest > 0 then rest else 0
  }

  /** A shrink, hold by hold: the `k`-th hold gives up what is still owed
      when the loop reaches it, all it holds at most; it is released when it
      reaches zero and its expiry is extended. A hold the loop never reaches
      (nothing is owed any more) is left as it was. */
  lemma {:induction false} DistributeDrains(rs: seq<Reservation>, ids: seq<Id>, remaining: int, expiresAt: int, k: int)
    requires DistinctSized(rs, ids) && remaining < 0 && 0 <= k < |ids|
    ensures var h := rs[ids[k]];
      var h' := Distribute(rs, ids, remaining, expiresAt).0[ids[k]];
      var owed := Owed(rs, ids, remaining, k);
      && (owed == 0 ==> h' == h)
      && (owed > 0 ==>
            h' == h.(quantity := if h.quantity <= owed then 0 else h.quantity - owed,
                     released := h.released || h.quantity <= owed,
                     expiresAt := expiresAt))
    decreases |ids|
  {
    var h0 := ids[0];
    var step := ResizeHold(rs[h0], remaining, expiresAt);
    var rs1 := rs[h0 := step.0];
    var tail := ids[1..];
    assert h0 !in tail;
    assert InRange(rs1, tail);
    if k == 0 {
      DrainsFirstHold(rs, ids, remaining, expiresAt);
    } else {
      assert Distribute(rs, ids, remaining, expiresAt) == Distribute(rs1, tail, step.1, expiresAt);
      assert ids[k] == tail[k - 1] && ids[k] != h0;
      assert ids[..k][1..] == tail[..k - 1];
      assert SumQty(rs, ids[..k]) == rs[h0].quantity + SumQty(rs, tail[..k - 1]);
      assert InRange(rs, tail[..k - 1]);
      assert h0 !in tail[..k - 1];
      SumQtyUpdateOutside(rs, tail[..k - 1], h0, step.0);
      SumQtyNonNegative(rs, tail[..k - 1]);
      if step.1 == 0 {
        assert Distribute(rs1, tail, 0, expiresAt) == (rs1, 0);
      } else {
        assert DistinctSized(rs1, tail);
        DistributeDrains(rs1, tail, step.1, expiresAt, k - 1);
        assert Owed(rs1, tail, step.1, k - 1) == Owed(rs, ids, remaining, k);
      }
    }
  }

  /** The first hold gives up all of the decrease it can. */
  lemma DrainsFirstHold(rs: seq<Reservation>, ids: seq<Id>, remaining: int, expiresAt: int)
    requires DistinctSized(rs, ids) && remaining < 0 && 0 < |ids|
    ensures var h := rs[ids[0]];
      var h' := Distribute(rs, ids, remaining, expiresAt).0[ids[0]];
      h' == h.(quantity := if h.quantity <= -remaining then 0 else h.quantity + remaining,
               released := h.released || h.quantity <= -remaining,
               expiresAt := expiresAt)
  {
    var h0 := ids[0];
    var step := ResizeHold(rs[h0], remaining, expiresAt);
    assert h0 !in ids[1..];
    assert InRange(rs[h0 := step.0], ids[1..]);
    assert Distribute(rs, ids, remaining, expiresAt) == Distribute(rs[h0 := step.0], ids[1..], step.1, expiresAt);
  }

  /** With the single hold a valid store gives an item, a resize that keeps
      the quantity positive rewrites just that hold: new quantity, new
      expiry, still unreleased. */
  lemma DistributeSingleHold(rs: seq<Reservation>, h: Id, diff: int, expiresAt: int)
    requires 0 <= h < |rs| && diff != 0
    requires rs[h].quantity >= 0 && rs[h].quantity + diff > 0
    ensures Distribute(rs, [h], diff, expiresAt).0
         == rs[h := rs[h].(quantity := rs[h].quantity + diff, expiresAt := expiresAt)]
  {
    var step := ResizeHold(rs[h], diff, expiresAt);
    assert step.0 == rs[h].(quantity := rs[h].quantity + diff, expiresAt := expiresAt);
    assert [h][1..] == [];
  }

  // ---------------------------------------------------------------------
  // Resizing an item

  /** `updateCartItemQuantity`. The price snapshot is kept; only the
      quantity and the subtotal change. */
  function UpdateCartItemQuantity(s: State, now: int, itemId: Id, newQuantity: int): (r: Result<State>)
    ensures itemId !in s.items ==> r == Failure(CartItemNotFound)
    ensures itemId in s.items && newQuantity <= 0 ==> r == Failure(InvalidQuantity)
    ensures itemId in s.items && newQuantity > 0 && newQuantity != s.items[itemId].quantity ==>
      var item := s.items[itemId];
      var diff := newQuantity - item.quantity;
      && (ActiveFor(s.reservations, itemId) == [] ==> r == Failure(NoActiveReservations))
      && (ActiveFor(s.reservations, itemId) != [] && item.variantId !in s.variants ==> r == Failure(VariantNotFound))
      && (ActiveFor(s.reservations, itemId) != [] && item.variantId in s.variants ==>
            var short := diff > 0 && s.variants[item.variantId].stock - s.variants[item.variantId].reserved < diff;
            && (r == Failure(InsufficientStock) <==> short)
            && (r.Success? <==> !short))
    ensures itemId in s.items && newQuantity > 0 && newQuantity == s.items[itemId].quantity ==>
      r.Success? && r.value.variants == s.variants && r.value.reservations == s.reservations
    ensures r.Success? ==>
      var item := s.items[itemId];
      var t := r.value;
      && t.items.Keys == s.items.Keys
      && t.items[itemId] == item.(quantity := newQuantity, subtotal := LineTotal(item.unitPrice, newQuantity))
      && (forall c :: c in s.items && c != itemId ==> t.items[c] == s.items[c])
      && t.variants.Keys == s.variants.Keys
      && (forall w :: w in s.variants && w != item.variantId ==> t.variants[w] == s.variants[w])
      && (item.variantId in s.variants ==>
            t.variants[item.variantId]
              == s.variants[item.variantId].(reserved := s.variants[item.variantId].reserved + newQuantity - item.quantity))
      && |t.reservations| == |s.reservations|
      && (newQuantity != item.quantity ==>
            t.reservations
              == Distribute(s.reservations, ActiveFor(s.reservations, itemId), newQuantity - item.quantity,
                            now + HoldSeconds).0)
      && t.products == s.products && t.carts == s.carts && t.rules == s.rules
      && t.usage == s.usage && t.orders == s.orders && t.nextItemId == s.nextItemId
  {
    if itemId !in s.items then Failure(CartItemNotFound)
    else if newQuantity <= 0 then Failure(InvalidQuantity)
    else
      var item := s.items[itemId];
      var diff := newQuantity - item.quantity;
      var items := s.items[itemId := item.(quantity := newQuantity, subtotal := LineTotal(item.unitPrice, newQuantity))];
      if diff == 0 then Success(s.(items := items))
      else
        var ids := ActiveFor(s.reservations, itemId);
        if |ids| == 0 then Failure(NoActiveReservations)
        else if item.variantId !in s.variants then Failure(VariantNotFound)
        else
          var v := s.variants[item.variantId];
          if diff > 0 && v.stock - v.reserved < diff then Failure(InsufficientStock)
          else
            var rs := Distribute(s.reservations, ids, diff, now + HoldSeconds).0;
            Success(s.(variants := s.variants[item.variantId := v.(reserved := v.reserved + diff)],
                       reservations := rs,
                       items := items))
  }

  // ---------------------------------------------------------------------
  // Removing an item

  /** Marks the holds at `ids` released, one after the other. */
  function ReleaseAll(rs: seq<Reservation>, ids: seq<Id>): (rs': seq<Reservation>)
    requires InRange(rs, ids)
    ensures |rs'| == |rs|
    ensures forall i :: 0 <= i < |rs| ==> rs'[i] == (if i in ids then rs[i].(released := true) else rs[i])
    decreases |ids|
  {
    if |ids| == 0 then rs
    else ReleaseAll(rs[ids[0] := rs[ids[0]].(released := true)], ids[1..])
  }

  /** What a successful `removeCartItem` leaves: the item's holds released,
      their total taken off the variant's reserved count, the item deleted.
      With no holds only the item goes. */
  function ReleaseHolds(s: State, itemId: Id): (t: State)
    requires itemId in s.items
    requires ActiveFor(s.reservations, itemId) != [] ==> s.items[itemId].variantId in s.variants
    ensures
      var ids := ActiveFor(s.reservations, itemId);
      var vid := s.items[itemId].variantId;
      && t.items == s.items - {itemId}
      && |t.reservations| == |s.reservations|
      && (forall i :: 0 <= i < |s.reservations| ==>
            t.reservations[i] == (if i in ids then s.reservations[i].(released := true) else s.reservations[i]))
      && (ids == [] ==> t.variants == s.variants && t.reservations == s.reservations)
      && (ids != [] ==>
            t.variants == s.variants[vid := s.variants[vid].(reserved := s.variants[vid].reserved - SumQty(s.reservations, ids))])
      && t.products == s.products && t.carts == s.carts && t.rules == s.rules
      && t.usage == s.usage && t.orders == s.orders && t.nextItemId == s.nextItemId
  {
    var item := s.items[itemId];
    var ids := ActiveFor(s.reservations, itemId);
    if ids == [] then s.(items := s.items - {itemId})
    else
      var v := s.variants[item.variantId];
      s.(variants := s.variants[item.variantId := v.(reserved := v.reserved - SumQty(s.reservations, ids))],
         reservations := ReleaseAll(s.reservations, ids),
         items := s.items - {itemId})
  }

  /** `removeCartItem`: fails when the item is missing, or when it has holds
      and its variant is missing; otherwise it succeeds with `ReleaseHolds`. */
  function RemoveCartItem(s: State, itemId: Id): (r: Result<State>)
    ensures itemId !in s.items ==> r == Failure(CartItemNotFound)
    ensures itemId in s.items ==>
      (r.Failure? <==> ActiveFor(s.reservations, itemId) != [] && s.items[itemId].variantId !in s.variants)
      && (r.Failure? ==> r.error == VariantNotFound)
    ensures r.Success? ==> itemId in s.items && r.value == ReleaseHolds(s, itemId)
  {
    if itemId !in s.items then Failure(CartItemNotFound)
    else if ActiveFor(s.reservations, itemId) != [] && s.items[itemId].variantId !in s.variants then
      Failure(VariantNotFound)
    else Success(ReleaseHolds(s, itemId))
  }

  // ---------------------------------------------------------------------
  // The ledger invariant is kept

  lemma ReservedNewItemLedger(s: State, item: CartItem, hold: Reservation, t: State)
    requires LedgerConsistent(s) && ReservedNewItem(s, item, hold, t)
    requires s.variants[item.variantId].reserved + item.quantity <= s.variants[item.variantId].stock
    ensures LedgerConsistent(t)
  {
    forall w | w in t.variants
      ensures t.variants[w].reserved == ActiveSum(t.reservations, w) && t.variants[w].reserved <= t.variants[w].stock
    {
      ActiveSumAppend(s.reservations, hold, w);
    }
  }

  lemma ReservedNewItemLinks(s: State, item: CartItem, hold: Reservation, t: State)
    requires HoldsLinked(s) && OneHoldPerItem(s) && ItemsIssued(s) && ReservedNewItem(s, item, hold, t)
    requires item.quantity > 0
    ensures HoldsLinked(t) && OneHoldPerItem(t) && ItemsIssued(t)
  {
    var n := |s.reservations|;
    var id := s.nextItemId;
    forall i | 0 <= i < n
      ensures t.reservations[i] == s.reservations[i]
      ensures s.reservations[i].cartItemId.Some? ==> s.reservations[i].cartItemId.value < id
    {
    }
    assert t.reservations[n] == hold;
    forall i | 0 <= i < |t.reservations| && !t.reservations[i].released
      ensures
        var r := t.reservations[i];
        && r.variantId in t.variants && r.cartItemId.Some? && r.cartItemId.value in t.items
        && t.items[r.cartItemId.value].variantId == r.variantId
        && t.items[r.cartItemId.value].quantity == r.quantity
    {
    }
    forall i, j | 0 <= i < |t.reservations| && 0 <= j < |t.reservations|
        && !t.reservations[i].released && !t.reservations[j].released
        && t.reservations[i].cartItemId == t.reservations[j].cartItemId
      ensures i == j
    {
    }
  }

  /** Reserving a positive quantity that the available stock covers keeps
      the ledger invariant, whatever the quote. */
  lemma ReservePreservesValid(s: State, now: int, cartId: Id, variantId: Id, quantity: int, p: PriceResult)
    requires Valid(s) && quantity > 0 && variantId in s.variants
    requires s.variants[variantId].reserved + quantity <= s.variants[variantId].stock
    ensures Valid(ReserveLine(s, now, cartId, variantId, quantity, p).0)
  {
    var t := ReserveLine(s, now, cartId, variantId, quantity, p).0;
    var item := CartItem(cartId, variantId, quantity, p.finalUnitPrice, p.appliedRules, p.totalPrice, now);
    var hold := Reservation(variantId, Some(s.nextItemId), quantity, now + HoldSeconds, false);
    ReservedNewItemLedger(s, item, hold, t);
    ReservedNewItemLinks(s, item, hold, t);
  }

  lemma AddPreservesValid(s: State, now: int, cartId: Id, variantId: Id, quantity: int,
                          userTier: Option<string>, promoCode: Option<string>)
    requires Valid(s) && quantity > 0
    ensures var r := AddItemToCart(s, now, cartId, variantId, quantity, userTier, promoCode);
      r.Success? ==> Valid(r.value.0)
  {
    if AddItemToCart(s, now, cartId, variantId, quantity, userTier, promoCode).Success? {
      var quote := QuoteForLine(s, now, cartId, variantId, quantity, userTier, promoCode).value;
      ReservePreservesValid(s, now, cartId, variantId, quantity, quote);
    }
  }

  /** The store shape a resize of a valid store produces: the item's single
      hold `h` and the item take the new quantity, and the variant's reserved
      count moves by the difference. */
  predicate ResizedHold(s: State, itemId: Id, h: Id, newQuantity: int, expiresAt: int, t: State)
    requires itemId in s.items && 0 <= h < |s.reservations|
  {
    var item := s.items[itemId];
    var vid := item.variantId;
    var diff := newQuantity - item.quantity;
    && vid in s.variants
    && t.variants == s.variants[vid := s.variants[vid].(reserved := s.variants[vid].reserved + diff)]
    && t.reservations == s.reservations[h := s.reservations[h].(quantity := newQuantity, expiresAt := expiresAt)]
    && t.items == s.items[itemId := item.(quantity := newQuantity, subtotal := LineTotal(item.unitPrice, newQuantity))]
    && t.nextItemId == s.nextItemId
  }

  lemma ResizedHoldKeepsValid(s: State, itemId: Id, h: Id, newQuantity: int, expiresAt: int, t: State)
    requires Valid(s) && itemId in s.items && 0 <= h < |s.reservations|
    requires LinkedActive(s.reservations[h], itemId) && newQuantity > 0
    requires ResizedHold(s, itemId, h, newQuantity, expiresAt, t)
    requires var v := s.variants[s.items[itemId].variantId];
      v.reserved + newQuantity - s.items[itemId].quantity <= v.stock
    ensures Valid(t)
  {
    var rs := s.reservations;
    var hold' := rs[h].(quantity := newQuantity, expiresAt := expiresAt);
    forall w | w in t.variants
      ensures t.variants[w].reserved == ActiveSum(t.reservations, w) && t.variants[w].reserved <= t.variants[w].stock
    {
      ActiveSumUpdate(rs, h, hold', w);
    }
    forall i | 0 <= i < |rs| && i != h && !rs[i].released
      ensures rs[i].cartItemId != Some(itemId)
    {
    }
    assert HoldsLinked(t);
    assert OneHoldPerItem(t);
    assert ItemsIssued(t);
  }

  /** With a single hold on the item, a resize has the `ResizedHold` shape. */
  lemma ResizeShape(s: State, now: int, itemId: Id, newQuantity: int, h: Id)
    requires UpdateCartItemQuantity(s, now, itemId, newQuantity).Success?
    requires newQuantity != s.items[itemId].quantity
    requires ActiveFor(s.reservations, itemId) == [h]
    requires 0 <= h < |s.reservations| && s.reservations[h].quantity == s.items[itemId].quantity >= 0
    ensures ResizedHold(s, itemId, h, newQuantity, now + HoldSeconds, UpdateCartItemQuantity(s, now, itemId, newQuantity).value)
  {
    var t := UpdateCartItemQuantity(s, now, itemId, newQuantity).value;
    var item := s.items[itemId];
    var diff := newQuantity - item.quantity;
    var vid := item.variantId;
    DistributeSingleHold(s.reservations, h, diff, now + HoldSeconds);
    assert t.reservations == Distribute(s.reservations, [h], diff, now + HoldSeconds).0;
    assert t.variants == s.variants[vid := s.variants[vid].(reserved := s.variants[vid].reserved + diff)];
  }

  lemma UpdatePreservesValid(s: State, now: int, itemId: Id, newQuantity: int)
    requires Valid(s)
    requires UpdateCartItemQuantity(s, now, itemId, newQuantity).Success?
    ensures Valid(UpdateCartItemQuantity(s, now, itemId, newQuantity).value)
  {
    var t := UpdateCartItemQuantity(s, now, itemId, newQuantity).value;
    var item := s.items[itemId];
    if newQuantity != item.quantity {
      ValidHoldOfItem(s, itemId);
      var ids := ActiveFor(s.reservations, itemId);
      var h := ids[0];
      assert ids == [h];
      ResizeShape(s, now, itemId, newQuantity, h);
      ResizedHoldKeepsValid(s, itemId, h, newQuantity, now + HoldSeconds, t);
    } else {
      assert t == s.(items := t.items);
      assert HoldsLinked(t);
    }
  }

  /** The store shape removing an item of a valid store produces: its single
      hold `h` (when it has one) is released, the reserved count drops by the
      hold's quantity, and the item is gone. */
  predicate ReleasedItem(s: State, itemId: Id, h: Option<Id>, t: State)
    requires itemId in s.items && (h.Some? ==> 0 <= h.value < |s.reservations|)
  {
    var vid := s.items[itemId].variantId;
    && t.items == s.items - {itemId}
    && t.nextItemId == s.nextItemId
    && (h.None? ==> t.variants == s.variants && t.reservations == s.reservations)
    && (h.Some? ==>
          var q := s.reservations[h.value].quantity;
          && vid in s.variants
          && t.variants == s.variants[vid := s.variants[vid].(reserved := s.variants[vid].reserved - q)]
          && t.reservations == s.reservations[h.value := s.reservations[h.value].(released := true)])
  }

  lemma ReleasedItemKeepsValid(s: State, itemId: Id, h: Option<Id>, t: State)
    requires Valid(s) && itemId in s.items && (h.Some? ==> 0 <= h.value < |s.reservations|)
    requires h.Some? ==> LinkedActive(s.reservations[h.value], itemId)
    requires h.None? ==> forall i :: 0 <= i < |s.reservations| ==> !LinkedActive(s.reservations[i], itemId)
    requires ReleasedItem(s, itemId, h, t)
    ensures Valid(t)
  {
    var rs := s.reservations;
    forall i | 0 <= i < |rs| && (h.None? || i != h.value) && !rs[i].released
      ensures rs[i].cartItemId != Some(itemId)
    {
      if h.Some? {
        assert LinkedActive(rs[h.value], itemId);
      }
    }
    if h.Some? {
      var hold' := rs[h.value].(released := true);
      forall w | w in t.variants
        ensures t.variants[w].reserved == ActiveSum(t.reservations, w) && t.variants[w].reserved <= t.variants[w].stock
      {
        ActiveSumUpdate(rs, h.value, hold', w);
        ValidBounds(s, w);
      }
    }
    assert LedgerConsistent(t);
    assert HoldsLinked(t);
    assert OneHoldPerItem(t);
    assert ItemsIssued(t);
  }

  /** With at most one hold on the item, a removal has the `ReleasedItem`
      shape. */
  lemma RemoveShape(s: State, itemId: Id)
    requires RemoveCartItem(s, itemId).Success?
    requires |ActiveFor(s.reservations, itemId)| <= 1
    ensures var ids := ActiveFor(s.reservations, itemId);
      ReleasedItem(s, itemId, if ids == [] then None else Some(ids[0]), RemoveCartItem(s, itemId).value)
  {
    var ids := ActiveFor(s.reservations, itemId);
    if ids != [] {
      ReleaseSingleHold(s, itemId, ids[0]);
    }
  }

  lemma ReleaseSingleHold(s: State, itemId: Id, h: Id)
    requires itemId in s.items && s.items[itemId].variantId in s.variants
    requires ActiveFor(s.reservations, itemId) == [h]
    ensures ReleasedItem(s, itemId, Some(h), ReleaseHolds(s, itemId))
  {
    var rs := s.reservations;
    var ids := ActiveFor(rs, itemId);
    assert ids[0] == h;
    assert SumQty(rs, [h]) == rs[h].quantity;
    var rs' := ReleaseAll(rs, [h]);
    forall i | 0 <= i < |rs|
      ensures rs'[i] == rs[h := rs[h].(released := true)][i]
    {
      assert i in [h] <==> i == h;
    }
    assert rs' == rs[h := rs[h].(released := true)];
  }

  /** After a successful removal the item has no unreleased hold left, and
      every hold that was not the item's is as before. */
  lemma RemoveClearsHolds(s: State, itemId: Id)
    requires RemoveCartItem(s, itemId).Success?
    ensures var t := RemoveCartItem(s, itemId).value;
      var ids := ActiveFor(s.reservations, itemId);
      && ActiveFor(t.reservations, itemId) == []
      && forall i :: 0 <= i < |s.reservations| && i !in ids ==> t.reservations[i] == s.reservations[i]
  {
    if ActiveFor(s.reservations, itemId) != [] {
      ReleaseAllClears(s.reservations, itemId);
    }
  }

  lemma RemovePreservesValid(s: State, itemId: Id)
    requires Valid(s)
    requires RemoveCartItem(s, itemId).Success?
    ensures Valid(RemoveCartItem(s, itemId).value)
  {
    var t := RemoveCartItem(s, itemId).value;
    ValidHoldOfItem(s, itemId);
    var ids := ActiveFor(s.reservations, itemId);
    RemoveShape(s, itemId);
    if ids == [] {
      ReleasedItemKeepsValid(s, itemId, None, t);
    } else {
      ReleasedItemKeepsValid(s, itemId, Some(ids[0]), t);
    }
  }

  // ---------------------------------------------------------------------
  // Round trips

  /** Removing an item just added gives back the variant ledger and the
      item table; the only trace is the released hold. An add that succeeds
      is `ReserveLine` with its quote, so this holds for every quote. */
  lemma AddThenRemoveRestores(s: State, now: int, cartId: Id, variantId: Id, quantity: int, p: PriceResult)
    requires ItemsIssued(s) && variantId in s.variants
    ensures
      var r := ReserveLine(s, now, cartId, variantId, quantity, p);
      var u := RemoveCartItem(r.0, r.1);
      && u.Success?
      && u.value.variants == s.variants
      && u.value.items == s.items
      && u.value.reservations
           == s.reservations + [Reservation(variantId, Some(r.1), quantity, now + HoldSeconds, true)]
  {
    var t := ReserveLine(s, now, cartId, variantId, quantity, p).0;
    var item := CartItem(cartId, variantId, quantity, p.finalUnitPrice, p.appliedRules, p.totalPrice, now);
    var hold := Reservation(variantId, Some(s.nextItemId), quantity, now + HoldSeconds, false);
    RemoveReservedNewItem(s, item, hold, t);
  }

  /** Removing the item a reserve just created releases exactly its hold and
      gives back the variants and the item table. */
  lemma RemoveReservedNewItem(s: State, item: CartItem, hold: Reservation, t: State)
    requires ItemsIssued(s) && ReservedNewItem(s, item, hold, t)
    ensures
      var u := RemoveCartItem(t, s.nextItemId);
      && u.Success?
      && u.value.variants == s.variants
      && u.value.items == s.items
      && u.value.reservations == s.reservations + [hold.(released := true)]
  {
    var id := s.nextItemId;
    var n := |s.reservations|;
    NewHoldOnlyActive(s, item, hold, t);
    ReleaseNewHold(s, item, hold, t);
    assert SumQty(t.reservations, [n]) == item.quantity;
    var v := s.variants[item.variantId];
    assert t.variants[item.variantId := v] == s.variants;
    assert t.items - {id} == s.items;
  }

  /** Before a reserve no unreleased hold links to the id about to be
      issued, so the new hold is the item's only one. */
  lemma NewHoldOnlyActive(s: State, item: CartItem, hold: Reservation, t: State)
    requires ItemsIssued(s) && ReservedNewItem(s, item, hold, t)
    ensures ActiveFor(t.reservations, s.nextItemId) == [|s.reservations|]
  {
    var id := s.nextItemId;
    var n := |s.reservations|;
    forall i | 0 <= i < n
      ensures !LinkedActive(s.reservations[i], id)
    {
    }
    NoLinkedMeansNone(s.reservations, id);
    assert t.reservations[..n] == s.reservations;
  }

  lemma ReleaseNewHold(s: State, item: CartItem, hold: Reservation, t: State)
    requires ReservedNewItem(s, item, hold, t)
    ensures ReleaseAll(t.reservations, [|s.reservations|]) == s.reservations + [hold.(released := true)]
  {
  }

  /** Releasing every unreleased hold of an item leaves it none, and touches
      no other hold. */
  lemma ReleaseAllClears(rs: seq<Reservation>, item: Id)
    ensures var rs' := ReleaseAll(rs, ActiveFor(rs, item));
      && ActiveFor(rs', item) == []
      && forall i :: 0 <= i < |rs| && i !in ActiveFor(rs, item) ==> rs'[i] == rs[i]
  {
    var ids := ActiveFor(rs, item);
    var rs' := ReleaseAll(rs, ids);
    forall i | 0 <= i < |rs'|
      ensures !LinkedActive(rs'[i], item)
    {
      if i in ids {
        assert rs'[i].released;
      } else {
        assert rs'[i] == rs[i];
      }
    }
    NoLinkedMeansNone(rs', item);
  }

  lemma NoLinkedMeansNone(rs: seq<Reservation>, item: Id)
    requires forall i :: 0 <= i < |rs| ==> !LinkedActive(rs[i], item)
    ensures ActiveFor(rs, item) == []
  {
    var ids := ActiveFor(rs, item);
    var first := if |ids| > 0 then ids[0] else 0;
  }

  /** Resizing an item back to its old quantity succeeds and gives back the
      variant ledger. */
  lemma ResizeBackRestoresLedger(s: State, now: int, now': int, itemId: Id, newQuantity: int)
    requires Valid(s)
    requires UpdateCartItemQuantity(s, now, itemId, newQuantity).Success?
    ensures
      var t := UpdateCartItemQuantity(s, now, itemId, newQuantity).value;
      var u := UpdateCartItemQuantity(t, now', itemId, s.items[itemId].quantity);
      && u.Success?
      && u.value.variants == s.variants
      && u.value.items[itemId].quantity == s.items[itemId].quantity
  {
    var oldQ := s.items[itemId].quantity;
    if newQuantity != oldQ {
      ValidHoldOfItem(s, itemId);
      var h := ActiveFor(s.reservations, itemId)[0];
      ResizeShape(s, now, itemId, newQuantity, h);
      ResizeBackFromShape(s, itemId, h, newQuantity, now + HoldSeconds,
                          UpdateCartItemQuantity(s, now, itemId, newQuantity).value, now');
    }
  }

  /** From the resized store, going back to the old quantity succeeds and
      gives back the variants. */
  lemma ResizeBackFromShape(s: State, itemId: Id, h: Id, newQuantity: int, expiresAt: int, t: State, now': int)
    requires itemId in s.items && 0 <= h < |s.reservations|
    requires LinkedActive(s.reservations[h], itemId) && s.items[itemId].quantity > 0
    requires ResizedHold(s, itemId, h, newQuantity, expiresAt, t)
    requires var v := s.variants[s.items[itemId].variantId]; v.reserved <= v.stock
    ensures
      var u := UpdateCartItemQuantity(t, now', itemId, s.items[itemId].quantity);
      && u.Success?
      && u.value.variants == s.variants
      && u.value.items[itemId].quantity == s.items[itemId].quantity
  {
    var item := s.items[itemId];
    var vid := item.variantId;
    assert LinkedActive(t.reservations[h], itemId);
    assert h in ActiveFor(t.reservations, itemId);
    assert t.items[itemId].quantity == newQuantity && t.items[itemId].variantId == vid;
    var u := UpdateCartItemQuantity(t, now', itemId, item.quantity);
    assert u.Success?;
    assert u.value.variants == t.variants[vid := s.variants[vid]];
    assert t.variants[vid := s.variants[vid]] == s.variants;
  }

  /** Once a line takes every available unit, any further positive add of
      that variant fails for lack of stock: holds never oversell. */
  lemma AddExhaustsStock(s: State, now: int, cartId: Id, variantId: Id, p: PriceResult,
                         now': int, cartId': Id, quantity': int, userTier': Option<string>, promoCode': Option<string>)
    requires variantId in s.variants && cartId' in s.carts && quantity' > 0
    ensures
      var v := s.variants[variantId];
      var t := ReserveLine(s, now, cartId, variantId, v.stock - v.reserved, p).0;
      AddItemToCart(t, now', cartId', variantId, quantity', userTier', promoCode') == Failure(InsufficientStock)
  {
  }

  /** Without the positivity check a negative quantity goes through: on a
      variant with nothing reserved, adding -1 units succeeds and leaves the
      reserved count at -1. */
  lemma AddNegativeQuantityUnderflows()
    ensures
      var s := State(map[1 := Product(10.0, None)], map[2 := Variant(1, 5, 0, 0.0)], [], map[], 0,
                     map[3 := Cart(4, "ACTIVE")], [], [], []);
      var r := AddItemToCart(s, 0, 3, 2, -1, None, None);
      r.Success? && r.value.0.variants[2].reserved == -1
  {
    var s := State(map[1 := Product(10.0, None)], map[2 := Variant(1, 5, 0, 0.0)], [], map[], 0,
                   map[3 := Cart(4, "ACTIVE")], [], [], []);
    assert QuoteForLine(s, 0, 3, 2, -1, None, None).Success? by {
      assert ActiveValidRules([], 0) == [];
      assert ApplyAllPasses([], Quote(1, Some(2), None, -1, None, None, Some(4), 0), [], 10.0).Success?;
    }
  }
}
