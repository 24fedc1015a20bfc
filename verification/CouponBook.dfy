/** One coupon: its uses counted on the row, each with a redemption that may be given back. */
module CouponBook {
  import opened Wrappers

  datatype Redemption = Redemption(order: nat, customer: Option<nat>, released: bool)

  datatype Coupon = Coupon(
    usageLimit: Option<nat>,
    perCustomer: Option<nat>,
    usedCount: int,
    redemptions: seq<Redemption>)

  datatype Redeemed = Counted(coupon: Coupon) | Exhausted | UsedByCustomer

  function Live(redemptions: seq<Redemption>): nat {
    if redemptions == [] then 0
    else Live(redemptions[..|redemptions| - 1]) + if redemptions[|redemptions| - 1].released then 0 else 1
  }

  predicate LiveUse(r: Redemption, customer: nat) {
    !r.released && r.customer == Some(customer)
  }

  function LiveFor(redemptions: seq<Redemption>, customer: nat): nat {
    if redemptions == [] then 0
    else LiveFor(redemptions[..|redemptions| - 1], customer) +
         if LiveUse(redemptions[|redemptions| - 1], customer) then 1 else 0
  }

  /** Uses by the customer on other orders, as the limit is counted again under the lock. */
  function LiveElsewhere(redemptions: seq<Redemption>, customer: nat, order: nat): nat {
    if redemptions == [] then 0
    else
      var last := redemptions[|redemptions| - 1];
      LiveElsewhere(redemptions[..|redemptions| - 1], customer, order) +
      if LiveUse(last, customer) && last.order != order then 1 else 0
  }

  predicate IsExhausted(c: Coupon) {
    c.usageLimit.Some? && c.usedCount >= c.usageLimit.value
  }

  /** A limit of zero for each customer counts as none. */
  predicate LimitsEach(c: Coupon) {
    c.perCustomer.Some? && c.perCustomer.value > 0
  }

  predicate Names(redemptions: seq<Redemption>, order: nat) {
    exists i :: 0 <= i < |redemptions| && redemptions[i].order == order
  }

  /** Both limits asked again of the locked row; an order already on it is not counted twice. */
  function Redeem(c: Coupon, order: nat, customer: Option<nat>): Redeemed {
    if IsExhausted(c) then Exhausted
    else if LimitsEach(c) && customer.Some? &&
            LiveElsewhere(c.redemptions, customer.value, order) >= c.perCustomer.value then UsedByCustomer
    else if Names(c.redemptions, order) then Counted(c)
    else Counted(c.(usedCount := c.usedCount + 1,
                    redemptions := c.redemptions + [Redemption(order, customer, false)]))
  }

  function Without(redemptions: seq<Redemption>, order: nat): (rest: seq<Redemption>)
    ensures |rest| == |redemptions|
    ensures forall i :: 0 <= i < |rest| ==> rest[i].order == redemptions[i].order
  {
    if redemptions == [] then []
    else
      var last := redemptions[|redemptions| - 1];
      Without(redemptions[..|redemptions| - 1], order) +
      [if last.order == order then last.(released := true) else last]
  }

  function LiveOf(redemptions: seq<Redemption>, order: nat): nat {
    if redemptions == [] then 0
    else
      var last := redemptions[|redemptions| - 1];
      LiveOf(redemptions[..|redemptions| - 1], order) + if last.order == order && !last.released then 1 else 0
  }

  /** So many taken off, one by one and never below nothing. */
  function Less(used: int, live: nat): int {
    if live == 0 then used else if used > live then used - live else 0
  }

  /** The order's live uses given back. */
  function Release(c: Coupon, order: nat): Coupon {
    c.(usedCount := Less(c.usedCount, LiveOf(c.redemptions, order)), redemptions := Without(c.redemptions, order))
  }

  /** One redemption more. */
  lemma ReleaseNext(redemptions: seq<Redemption>, i: nat, order: nat)
    requires i < |redemptions|
    ensures var last, next := redemptions[i], redemptions[..i + 1];
      && Without(next, order) ==
          Without(redemptions[..i], order) + [if last.order == order then last.(released := true) else last]
      && LiveOf(next, order) == LiveOf(redemptions[..i], order) + if last.order == order && !last.released then 1 else 0
  {
    assert redemptions[..i + 1][..i] == redemptions[..i];
  }

  /** What is true of every coupon in every committed state. */
  ghost predicate CouponOk(c: Coupon) {
    && c.usedCount == Live(c.redemptions)
    && (c.usageLimit.Some? ==> c.usedCount <= c.usageLimit.value)
    && (c.perCustomer.Some? && c.perCustomer.value >= 1 ==>
          forall customer :: LiveFor(c.redemptions, customer) <= c.perCustomer.value)
    && forall i, j :: 0 <= i < j < |c.redemptions| ==> c.redemptions[i].order != c.redemptions[j].order
  }

  lemma {:induction false} NoneElsewhere(redemptions: seq<Redemption>, customer: nat, order: nat)
    requires !Names(redemptions, order)
    ensures LiveElsewhere(redemptions, customer, order) == LiveFor(redemptions, customer)
  {
    if redemptions != [] {
      var rest := redemptions[..|redemptions| - 1];
      assert !Names(rest, order) by {
        assert forall i :: 0 <= i < |rest| ==> rest[i] == redemptions[i];
      }
      NoneElsewhere(rest, customer, order);
    }
  }

  lemma RedeemKeepsOk(c: Coupon, order: nat, customer: Option<nat>)
    requires CouponOk(c) && Redeem(c, order, customer).Counted?
    ensures CouponOk(Redeem(c, order, customer).coupon)
  {
    if !Names(c.redemptions, order) {
      var after := Redeem(c, order, customer).coupon;
      assert after.redemptions[..|c.redemptions|] == c.redemptions;
      if customer.Some? {
        NoneElsewhere(c.redemptions, customer.value, order);
      }
      forall i, j | 0 <= i < j < |after.redemptions|
        ensures after.redemptions[i].order != after.redemptions[j].order
      {
      }
    }
  }

  lemma {:induction false} WithoutCounts(redemptions: seq<Redemption>, order: nat, customer: nat)
    ensures Live(Without(redemptions, order)) + LiveOf(redemptions, order) == Live(redemptions)
    ensures LiveFor(Without(redemptions, order), customer) <= LiveFor(redemptions, customer)
  {
    if redemptions != [] {
      var n := |redemptions| - 1;
      WithoutCounts(redemptions[..n], order, customer);
      assert Without(redemptions, order)[..n] == Without(redemptions[..n], order);
    }
  }

  lemma ReleaseKeepsOk(c: Coupon, order: nat)
    requires CouponOk(c)
    ensures CouponOk(Release(c, order))
    ensures Release(c, order).usedCount == c.usedCount - LiveOf(c.redemptions, order)
  {
    forall customer ensures LiveFor(Without(c.redemptions, order), customer) <= LiveFor(c.redemptions, customer) {
      WithoutCounts(c.redemptions, order, customer);
    }
    WithoutCounts(c.redemptions, order, 0);
  }
}
