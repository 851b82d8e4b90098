/** The expiry sweep: once per minute, the holds whose expiry has passed and
    that are still unreleased give their units back to their variants. A
    per-minute lease keeps two workers from sweeping the same minute; it is
    modelled as the set of minutes currently held. A hold whose variant is
    missing is skipped and the sweep goes on. */
module Expiry {
  import opened Types
  import opened Store

  predicate Expired(r: Reservation, now: int) {
    r.expiresAt < now && !r.released
  }

  /** `findExpiredUnreleased(now)`: the positions of the unreleased holds
      whose expiry is strictly before `now`, in id order. */
  function ExpiredUnreleased(rs: seq<Reservation>, now: int): (ids: seq<Id>)
    ensures InRange(rs, ids) && Ascending(ids)
    ensures forall k :: 0 <= k < |ids| ==> Expired(rs[ids[k]], now)
    ensures forall i :: 0 <= i < |rs| && Expired(rs[i], now) ==> i in ids
  {
    if |rs| == 0 then []
    else
      var n := |rs| - 1;
      var earlier := ExpiredUnreleased(rs[..n], now);
      assert forall i :: 0 <= i < n ==> rs[..n][i] == rs[i];
      earlier + (if Expired(rs[n], now) then [n] else [])
  }

  /** One iteration of the sweep on the hold at `i`: when its variant exists,
      the variant's reserved count drops by the hold's quantity and the hold
      is released; otherwise the hold is skipped and the store is as before. */
  function ReleaseOne(s: State, i: Id): (t: State)
    requires 0 <= i < |s.reservations|
    ensures s.reservations[i].variantId !in s.variants ==> t == s
    ensures s.reservations[i].variantId in s.variants ==>
      var r := s.reservations[i];
      var v := s.variants[r.variantId];
      && t.variants == s.variants[r.variantId := v.(reserved := v.reserved - r.quantity)]
      && t.reservations == s.reservations[i := r.(released := true)]
      && t.items == s.items && t.carts == s.carts && t.products == s.products
      && t.rules == s.rules && t.usage == s.usage && t.orders == s.orders && t.nextItemId == s.nextItemId
  {
    var r := s.reservations[i];
    if r.variantId !in s.variants then s
    else
      var v := s.variants[r.variantId];
      s.(variants := s.variants[r.variantId := v.(reserved := v.reserved - r.quantity)],
         reservations := s.reservations[i := r.(released := true)])
  }

  /** Keeps everything the sweep never writes. */
  predicate SweepFrame(s: State, t: State) {
    && |t.reservations| == |s.reservations|
    && t.variants.Keys == s.variants.Keys
    && (forall v :: v in s.variants ==> t.variants[v].stock == s.variants[v].stock)
    && t.items == s.items && t.carts == s.carts && t.products == s.products
    && t.rules == s.rules && t.usage == s.usage && t.orders == s.orders && t.nextItemId == s.nextItemId
  }

  /** The release loop over the holds at `ids`, in order. */
  function ReleaseExpired(s: State, ids: seq<Id>): (t: State)
    requires InRange(s.reservations, ids)
    ensures SweepFrame(s, t)
    ensures forall i :: 0 <= i < |s.reservations| && i !in ids ==> t.reservations[i] == s.reservations[i]
    decreases |ids|
  {
    if |ids| == 0 then s
    else
      var s1 := ReleaseOne(s, ids[0]);
      ReleaseExpired(s1, ids[1..])
  }

  /** What a hold looks like after the sweep: released when it was listed
      and its variant exists, untouched otherwise. */
  function AfterSweep(s: State, ids: seq<Id>, i: Id): Reservation
    requires 0 <= i < |s.reservations|
  {
    var r := s.reservations[i];
    if i in ids && r.variantId in s.variants then r.(released := true) else r
  }

  /** The loop releases exactly the listed holds whose variant exists. */
  lemma {:induction false} ReleaseExpiredExact(s: State, ids: seq<Id>)
    requires InRange(s.reservations, ids) && Ascending(ids)
    ensures forall i :: 0 <= i < |s.reservations| ==>
      ReleaseExpired(s, ids).reservations[i] == AfterSweep(s, ids, i)
    decreases |ids|
  {
    if |ids| > 0 {
      var h := ids[0];
      var s1 := ReleaseOne(s, h);
      var tail := ids[1..];
      ReleaseExpiredExact(s1, tail);
      forall i | 0 <= i < |s.reservations|
        ensures ReleaseExpired(s, ids).reservations[i] == AfterSweep(s, ids, i)
      {
        if i == h {
          assert h !in tail;
        } else {
          assert i in ids <==> i in tail;
        }
      }
    }
  }

  /** The gap between a variant's reserved count and its unreleased holds'
      total. The sweep keeps it: each release takes the same quantity off
      both. */
  function Gap(s: State, v: Id): int
    requires v in s.variants
  {
    s.variants[v].reserved - ActiveSum(s.reservations, v)
  }

  lemma ReleaseOneKeepsGap(s: State, i: Id, v: Id)
    requires 0 <= i < |s.reservations| && !s.reservations[i].released && v in s.variants
    ensures v in ReleaseOne(s, i).variants && Gap(ReleaseOne(s, i), v) == Gap(s, v)
  {
    var r := s.reservations[i];
    if r.variantId in s.variants {
      ActiveSumUpdate(s.reservations, i, r.(released := true), v);
    } else {
      assert Contribution(r, v) == 0;
    }
  }

  /** Over distinct unreleased holds, the loop keeps every variant's gap. */
  lemma {:induction false} ReleaseExpiredKeepsGap(s: State, ids: seq<Id>, v: Id)
    requires InRange(s.reservations, ids) && Ascending(ids) && v in s.variants
    requires forall k :: 0 <= k < |ids| ==> !s.reservations[ids[k]].released
    ensures v in ReleaseExpired(s, ids).variants && Gap(ReleaseExpired(s, ids), v) == Gap(s, v)
    decreases |ids|
  {
    if |ids| > 0 {
      var h := ids[0];
      ReleaseOneKeepsGap(s, h, v);
      var s1 := ReleaseOne(s, h);
      var tail := ids[1..];
      forall k | 0 <= k < |tail|
        ensures !s1.reservations[tail[k]].released
      {
        assert tail[k] == ids[k + 1] && ids[k + 1] != h;
      }
      ReleaseExpiredKeepsGap(s1, tail, v);
    }
  }

  /** The minute a lease key names. */
  function Minute(now: int): int {
    now / 60
  }

  /** `expireReservations`: when the minute's lease is already held nothing
      happens; otherwise the lease is taken, the expired holds are released,
      and the lease is given back whatever happened. Returns the store and
      the set of held leases. */
  function Sweep(s: State, held: set<int>, now: int): (r: (State, set<int>))
    ensures r.1 == held
    ensures Minute(now) in held ==> r.0 == s
    ensures SweepFrame(s, r.0)
    ensures Minute(now) !in held ==>
      forall i :: 0 <= i < |s.reservations| ==>
        r.0.reservations[i]
          == (if Expired(s.reservations[i], now) && s.reservations[i].variantId in s.variants
              then s.reservations[i].(released := true) else s.reservations[i])
  {
    var key := Minute(now);
    if key in held then (s, held)
    else
      var leased := held + {key};
      var ids := ExpiredUnreleased(s.reservations, now);
      ReleaseExpiredExact(s, ids);
      var t := ReleaseExpired(s, ids);
      assert leased - {key} == held;
      (t, leased - {key})
  }

  // ---------------------------------------------------------------------
  // Properties of the sweep

  /** Whatever the store, the sweep lowers each variant's reserved count by
      exactly the quantity it takes off that variant's unreleased holds. */
  lemma SweepKeepsGap(s: State, held: set<int>, now: int, v: Id)
    requires v in s.variants
    ensures var t := Sweep(s, held, now).0;
      v in t.variants && Gap(t, v) == Gap(s, v)
  {
    if Minute(now) !in held {
      ReleaseExpiredKeepsGap(s, ExpiredUnreleased(s.reservations, now), v);
    }
  }

  /** The sweep keeps the ledger invariant: reserved counts still equal the
      unreleased holds' totals and stay within stock; the holds left
      unreleased are untouched, so their links still hold. */
  lemma SweepPreservesValid(s: State, held: set<int>, now: int)
    requires Valid(s)
    ensures Valid(Sweep(s, held, now).0)
  {
    var t := Sweep(s, held, now).0;
    forall v | v in t.variants
      ensures t.variants[v].reserved == ActiveSum(t.reservations, v) && t.variants[v].reserved <= t.variants[v].stock
    {
      SweepLedgerAt(s, held, now, v);
    }
    assert LedgerConsistent(t);
    SweepKeepsLinks(s, held, now);
  }

  /** One variant's ledger after the sweep. */
  lemma SweepLedgerAt(s: State, held: set<int>, now: int, v: Id)
    requires Valid(s) && v in s.variants
    ensures var t := Sweep(s, held, now).0;
      v in t.variants
      && t.variants[v].reserved == ActiveSum(t.reservations, v)
      && t.variants[v].reserved <= t.variants[v].stock
  {
    var t := Sweep(s, held, now).0;
    var rs := s.reservations;
    SweepKeepsGap(s, held, now, v);
    ValidBounds(s, v);
    forall j | 0 <= j < |rs| && !rs[j].released
      ensures rs[j].quantity >= 0
    {
      assert s.items[rs[j].cartItemId.value].quantity > 0;
    }
    ActiveSumDropsOnRelease(rs, t.reservations, v);
    ActiveSumNonNegative(t.reservations, v);
  }

  /** The holds the sweep leaves unreleased are as they were, so the links
      between holds and items stay as the invariant wants them. */
  lemma SweepKeepsLinks(s: State, held: set<int>, now: int)
    requires Valid(s)
    ensures var t := Sweep(s, held, now).0;
      HoldsLinked(t) && OneHoldPerItem(t) && ItemsIssued(t)
  {
    var t := Sweep(s, held, now).0;
    forall j | 0 <= j < |t.reservations| && !t.reservations[j].released
      ensures t.reservations[j] == s.reservations[j]
    {
    }
  }

  /** Releasing holds (and changing nothing else about them) can only lower
      a variant's unreleased total. */
  lemma {:induction false} ActiveSumDropsOnRelease(rs: seq<Reservation>, rs': seq<Reservation>, v: Id)
    requires |rs'| == |rs|
    requires forall i :: 0 <= i < |rs| ==> rs'[i] == rs[i] || rs'[i] == rs[i].(released := true)
    requires forall i :: 0 <= i < |rs| && !rs[i].released ==> rs[i].quantity >= 0
    ensures ActiveSum(rs', v) <= ActiveSum(rs, v)
    decreases |rs|
  {
    if |rs| > 0 {
      var n := |rs| - 1;
      ActiveSumDropsOnRelease(rs[..n], rs'[..n], v);
    }
  }

  /** A second sweep at the same instant changes nothing: the first released
      every expired hold it could, and the ones it skipped are skipped
      again. */
  lemma SweepIdempotent(s: State, held: set<int>, now: int)
    ensures var t := Sweep(s, held, now).0;
      Sweep(t, held, now).0 == t
  {
    var t := Sweep(s, held, now).0;
    if Minute(now) !in held {
      var ids := ExpiredUnreleased(t.reservations, now);
      forall k | 0 <= k < |ids|
        ensures t.reservations[ids[k]].variantId !in t.variants
      {
        var i := ids[k];
        assert Expired(t.reservations[i], now);
      }
      SkippedHoldsLeaveStore(t, ids);
    }
  }

  lemma {:induction false} SkippedHoldsLeaveStore(s: State, ids: seq<Id>)
    requires InRange(s.reservations, ids)
    requires forall k :: 0 <= k < |ids| ==> s.reservations[ids[k]].variantId !in s.variants
    ensures ReleaseExpired(s, ids) == s
    decreases |ids|
  {
    if |ids| > 0 {
      SkippedHoldsLeaveStore(s, ids[1..]);
    }
  }

  /** In a valid store every expired hold has a variant, so after a sweep no
      expired hold is left unreleased. */
  lemma SweepClearsExpired(s: State, held: set<int>, now: int)
    requires Valid(s) && Minute(now) !in held
    ensures var t := Sweep(s, held, now).0;
      forall i :: 0 <= i < |t.reservations| ==> !Expired(t.reservations[i], now)
  {
    var t := Sweep(s, held, now).0;
    forall i | 0 <= i < |t.reservations|
      ensures !Expired(t.reservations[i], now)
    {
      assert Expired(s.reservations[i], now) ==> s.reservations[i].variantId in s.variants;
    }
  }
}
