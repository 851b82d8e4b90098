/** The pricing engine: a pure quote for one product/variant line. Four
    passes run in a fixed order (SEASONAL, BULK, USER_TIER, PROMO), each over
    the currently valid rules in table order; every discount is taken from the
    running price, and the result is clamped at zero. Usage counters are read,
    never written. */
module Pricing {
  import opened Types
  import opened Store

  datatype RuleKind = Seasonal | Bulk | UserTier | Promo

  /** The value of a rule's `type` column that a pass selects (ignoring case). */
  function TypeName(k: RuleKind): string {
    match k
    case Seasonal => "SEASONAL"
    case Bulk => "BULK"
    case UserTier => "USER_TIER"
    case Promo => "PROMO"
  }

  /** The `type` a pass writes into its audit records. The promo pass writes
      "PROMO_CODE", not its selector "PROMO". */
  function AuditLabel(k: RuleKind): string {
    match k
    case Seasonal => "SEASONAL"
    case Bulk => "BULK"
    case UserTier => "USER_TIER"
    case Promo => "PROMO_CODE"
  }

  /** Position of an audit tag's pass in the fixed pass order. */
  function PassRank(tag: string): int {
    if tag == "SEASONAL" then 0
    else if tag == "BULK" then 1
    else if tag == "USER_TIER" then 2
    else 3
  }

  // ---------------------------------------------------------------------
  // Case-insensitive comparison (ASCII letters)

  function Lower(c: char): char {
    if 'A' <= c <= 'Z' then (c as int + 32) as char else c
  }

  predicate EqualsIgnoreCase(a: string, b: string) {
    |a| == |b| && forall i :: 0 <= i < |a| ==> Lower(a[i]) == Lower(b[i])
  }

  /** `a.equalsIgnoreCase(b)` where the argument may be null. */
  predicate MatchesIgnoreCase(a: string, b: Option<string>) {
    b.Some? && EqualsIgnoreCase(a, b.value)
  }

  // ---------------------------------------------------------------------
  // Rule selection

  /** The validity filter of the rule query: active, and `now` inside the
      inclusive window `[startAt, endAt]` whose null bounds are open. */
  predicate ValidAt(rule: PricingRule, now: int) {
    && rule.active
    && (rule.startAt.None? || rule.startAt.value <= now)
    && (rule.endAt.None? || now <= rule.endAt.value)
  }

  /** `findActiveValidRules(now)`: the valid rules, in table order. */
  function ActiveValidRules(rules: seq<PricingRule>, now: int): (valid: seq<PricingRule>)
    ensures |valid| <= |rules|
    ensures forall x :: x in valid <==> x in rules && ValidAt(x, now)
    ensures forall x :: multiset(valid)[x] == (if ValidAt(x, now) then multiset(rules)[x] else 0)
  {
    if |rules| == 0 then []
    else
      assert rules == [rules[0]] + rules[1..];
      (if ValidAt(rules[0], now) then [rules[0]] else []) + ActiveValidRules(rules[1..], now)
  }

  /** Everything a quote is computed from besides the store. */
  datatype Quote = Quote(
    productId: Id,
    variantId: Option<Id>,
    categoryId: Option<Id>,
    quantity: int,
    userTier: Option<string>,
    promoCode: Option<string>,
    userId: Option<Id>,
    now: int)

  /** A rule applies to the line when its target is the product, the given
      variant, or the product's category. */
  predicate MatchesTarget(rule: PricingRule, productId: Id, variantId: Option<Id>, categoryId: Option<Id>) {
    || (MatchesIgnoreCase("PRODUCT", rule.targetType) && rule.targetId == Some(productId))
    || (MatchesIgnoreCase("VARIANT", rule.targetType) && rule.targetId.Some? && variantId.Some?
        && rule.targetId == variantId)
    || (MatchesIgnoreCase("CATEGORY", rule.targetType) && rule.targetId.Some? && rule.targetId == categoryId)
  }

  /** A product rule matches the product, a variant rule the given variant,
      a category rule the product's category; a rule without a target type
      or target id matches no line; a variant rule never matches a line
      quoted without a variant, and a category rule never matches a product
      without a category. The target type is compared without regard to
      case: a type spelled `other` with the same letters up to case matches
      exactly the same lines. */
  lemma TargetMatching(rule: PricingRule, productId: Id, variantId: Option<Id>, categoryId: Option<Id>, other: string)
    ensures MatchesIgnoreCase("PRODUCT", rule.targetType) ==>
      (MatchesTarget(rule, productId, variantId, categoryId) <==> rule.targetId == Some(productId))
    ensures MatchesIgnoreCase("VARIANT", rule.targetType) ==>
      (MatchesTarget(rule, productId, variantId, categoryId) <==> variantId.Some? && rule.targetId == variantId)
    ensures MatchesIgnoreCase("CATEGORY", rule.targetType) ==>
      (MatchesTarget(rule, productId, variantId, categoryId) <==> categoryId.Some? && rule.targetId == categoryId)
    ensures rule.targetType.None? || rule.targetId.None? ==> !MatchesTarget(rule, productId, variantId, categoryId)
    ensures MatchesIgnoreCase("VARIANT", rule.targetType) && variantId.None? ==>
      !MatchesTarget(rule, productId, variantId, categoryId)
    ensures MatchesIgnoreCase("CATEGORY", rule.targetType) && categoryId.None? ==>
      !MatchesTarget(rule, productId, variantId, categoryId)
    ensures rule.targetType.Some? && EqualsIgnoreCase(rule.targetType.value, other) ==>
      MatchesTarget(rule.(targetType := Some(other)), productId, variantId, categoryId)
        == MatchesTarget(rule, productId, variantId, categoryId)
    ensures rule.targetType == Some("product") && rule.targetId == Some(productId) ==>
      MatchesTarget(rule, productId, variantId, categoryId)
  {
    if MatchesIgnoreCase("VARIANT", rule.targetType) {
      var t := rule.targetType.value;
      assert Lower(t[0]) == 'v';
      assert !EqualsIgnoreCase("PRODUCT", t) by { assert Lower('P') != Lower(t[0]); }
      assert !EqualsIgnoreCase("CATEGORY", t) by { assert Lower('C') != Lower(t[0]); }
    }
    if MatchesIgnoreCase("CATEGORY", rule.targetType) {
      var t := rule.targetType.value;
      assert Lower(t[0]) == 'c';
      assert !EqualsIgnoreCase("PRODUCT", t) by { assert Lower('P') != Lower(t[0]); }
    }
    if rule.targetType == Some("product") {
      var t := rule.targetType.value;
      forall i | 0 <= i < |t|
        ensures Lower("PRODUCT"[i]) == Lower(t[i])
      {
      }
    }
    if rule.targetType.Some? && EqualsIgnoreCase(rule.targetType.value, other) {
      var t := rule.targetType.value;
      SameFolding("PRODUCT", t, other);
      SameFolding("VARIANT", t, other);
      SameFolding("CATEGORY", t, other);
    }
  }

  /** Two strings equal up to case compare alike with any third. */
  lemma SameFolding(a: string, t: string, other: string)
    requires EqualsIgnoreCase(t, other)
    ensures EqualsIgnoreCase(a, t) <==> EqualsIgnoreCase(a, other)
  {
    if EqualsIgnoreCase(a, t) {
      forall i | 0 <= i < |a|
        ensures Lower(a[i]) == Lower(other[i])
      {
        assert Lower(a[i]) == Lower(t[i]);
      }
    }
    if EqualsIgnoreCase(a, other) {
      forall i | 0 <= i < |a|
        ensures Lower(a[i]) == Lower(t[i])
      {
        assert Lower(a[i]) == Lower(other[i]);
      }
    }
  }

  /** The predicates a pass checks before consulting usage. */
  predicate PassPredicate(k: RuleKind, rule: PricingRule, q: Quote) {
    && MatchesIgnoreCase(TypeName(k), rule.kind)
    && rule.active
    && (match k
        case Seasonal =>
          (rule.startAt.None? || rule.startAt.value <= q.now) && (rule.endAt.None? || q.now <= rule.endAt.value)
        case Bulk =>
          rule.minQuantity.Some? && q.quantity >= rule.minQuantity.value
        case UserTier =>
          rule.userTier.Some? && MatchesIgnoreCase(rule.userTier.value, q.userTier)
        case Promo =>
          rule.promoCode.Some? && q.promoCode.Some? && EqualsIgnoreCase(rule.promoCode.value, q.promoCode.value))
    && MatchesTarget(rule, q.productId, q.variantId, q.categoryId)
  }

  predicate GlobalCapReached(rule: PricingRule, usage: seq<UsageRow>) {
    rule.usageLimit.Some? && SumUsage(usage, rule.id, None) >= rule.usageLimit.value
  }

  /** The usage-cap check. A per-user cap needs a user id, but only once the
      global cap has not already ruled the rule out. */
  function UsageAllowed(rule: PricingRule, usage: seq<UsageRow>, userId: Option<Id>): (r: Result<bool>)
    ensures r.Failure? <==> rule.usagePerUser.Some? && userId.None? && !GlobalCapReached(rule, usage)
    ensures r.Failure? ==> r.error == UserIdRequired
    ensures r.Success? ==>
      (r.value <==> && !GlobalCapReached(rule, usage)
                    && (rule.usagePerUser.None? || SumUsage(usage, rule.id, userId) < rule.usagePerUser.value))
  {
    if rule.usageLimit.Some? && SumUsage(usage, rule.id, None) >= rule.usageLimit.value then Success(false)
    else if rule.usagePerUser.Some? then
      if userId.None? then Failure(UserIdRequired)
      else Success(SumUsage(usage, rule.id, userId) < rule.usagePerUser.value)
    else Success(true)
  }

  /** A rule's discount off the running price: its percentage of that price
      (none when the percentage is null) plus, except in the seasonal pass,
      its flat amount. */
  function Discount(k: RuleKind, rule: PricingRule, price: real): real {
    var byPercentage := if rule.percentage.Some? then price * (rule.percentage.value / 100.0) else 0.0;
    if k != Seasonal && rule.flatAmount.Some? then byPercentage + rule.flatAmount.value else byPercentage
  }

  /** The seasonal pass ignores a rule's flat amount; the other passes add it
      on top of the percentage; a null percentage contributes nothing. */
  lemma DiscountShape(k: RuleKind, rule: PricingRule, price: real, flat: Option<real>)
    ensures k == Seasonal ==> Discount(k, rule, price) == Discount(k, rule.(flatAmount := flat), price)
    ensures k != Seasonal && rule.flatAmount.Some? ==>
      Discount(k, rule, price) == Discount(k, rule.(flatAmount := None), price) + rule.flatAmount.value
    ensures rule.percentage.None? ==> Discount(k, rule.(flatAmount := None), price) == 0.0
  {
  }

  predicate Selects(k: RuleKind, rule: PricingRule, q: Quote, usage: seq<UsageRow>) {
    PassPredicate(k, rule, q) && UsageAllowed(rule, usage, q.userId) == Success(true)
  }

  /** Reference definition of a pass's choice: the rules it applies, in order. */
  function Selected(k: RuleKind, rules: seq<PricingRule>, q: Quote, usage: seq<UsageRow>): (sel: seq<PricingRule>)
    ensures |sel| <= |rules|
    ensures forall x :: x in sel <==> x in rules && Selects(k, x, q, usage)
  {
    if |rules| == 0 then []
    else (if Selects(k, rules[0], q, usage) then [rules[0]] else []) + Selected(k, rules[1..], q, usage)
  }

  predicate PassFails(k: RuleKind, rule: PricingRule, q: Quote, usage: seq<UsageRow>) {
    PassPredicate(k, rule, q) && UsageAllowed(rule, usage, q.userId).Failure?
  }

  /** Some rule passes the pass's predicates and then trips the usage check. */
  predicate PassFailsOn(k: RuleKind, rules: seq<PricingRule>, q: Quote, usage: seq<UsageRow>) {
    exists rule :: rule in rules && PassFails(k, rule, q, usage)
  }

  lemma PassFailsOnCons(k: RuleKind, rules: seq<PricingRule>, q: Quote, usage: seq<UsageRow>)
    requires |rules| > 0
    ensures PassFailsOn(k, rules, q, usage) <==> PassFails(k, rules[0], q, usage) || PassFailsOn(k, rules[1..], q, usage)
  {
    assert rules == [rules[0]] + rules[1..];
    if PassFails(k, rules[0], q, usage) {
      assert rules[0] in rules;
    }
  }

  /** Some pass meets a rule that trips the usage check. */
  predicate RulesReject(rules: seq<PricingRule>, q: Quote, usage: seq<UsageRow>) {
    exists k :: PassFailsOn(k, rules, q, usage)
  }

  // ---------------------------------------------------------------------
  // Audit trails

  function SumAmounts(a: seq<Applied>): real {
    if |a| == 0 then 0.0 else a[0].amount + SumAmounts(a[1..])
  }

  function RuleIds(a: seq<Applied>): seq<Option<Id>> {
    if |a| == 0 then [] else [a[0].ruleId] + RuleIds(a[1..])
  }

  function IdsOf(rules: seq<PricingRule>): seq<Option<Id>> {
    if |rules| == 0 then [] else [Some(rules[0].id)] + IdsOf(rules[1..])
  }

  /** Rule ids of the audit entries written by the pass labelled `tag`. */
  function LabelledIds(a: seq<Applied>, tag: string): seq<Option<Id>> {
    if |a| == 0 then []
    else (if a[0].kind == tag then [a[0].ruleId] else []) + LabelledIds(a[1..], tag)
  }

  predicate AllLabelled(a: seq<Applied>, tag: string) {
    forall i :: 0 <= i < |a| ==> a[i].kind == tag
  }

  /** Entries appear pass by pass. */
  predicate PassesOrdered(a: seq<Applied>) {
    forall i, j :: 0 <= i < j < |a| ==> PassRank(a[i].kind) <= PassRank(a[j].kind)
  }

  /** Replaying a pass's trail against the rules it selected: each entry names
      the next selected rule and records that rule's discount off the price
      left after the entries before it. */
  predicate Replays(k: RuleKind, sel: seq<PricingRule>, a: seq<Applied>, price: real)
    decreases |a|
  {
    if |a| == 0 then |sel| == 0
    else
      && |sel| > 0
      && a[0] == Applied(Some(sel[0].id), AuditLabel(k), Discount(k, sel[0], price))
      && Replays(k, sel[1..], a[1..], price - a[0].amount)
  }

  lemma {:induction false} ReplayFacts(k: RuleKind, sel: seq<PricingRule>, a: seq<Applied>, price: real)
    requires Replays(k, sel, a, price)
    ensures |a| == |sel|
    ensures AllLabelled(a, AuditLabel(k))
    ensures RuleIds(a) == IdsOf(sel)
    decreases |a|
  {
    if |a| > 0 {
      ReplayFacts(k, sel[1..], a[1..], price - a[0].amount);
    }
  }

  datatype PassResult = PassResult(price: real, applied: seq<Applied>)

  /** One pass over the rules: each selected rule takes its discount off the
      running price and appends an audit record. */
  function ApplyPass(k: RuleKind, rules: seq<PricingRule>, q: Quote, usage: seq<UsageRow>, price: real): (r: Result<PassResult>)
    ensures r.Failure? <==> PassFailsOn(k, rules, q, usage)
    ensures r.Failure? ==> r.error == UserIdRequired
    ensures r.Success? ==>
      && r.value.price == price - SumAmounts(r.value.applied)
      && Replays(k, Selected(k, rules, q, usage), r.value.applied, price)
    decreases |rules|
  {
    if |rules| == 0 then Success(PassResult(price, []))
    else
      var rule := rules[0];
      var tail := rules[1..];
      PassFailsOnCons(k, rules, q, usage);
      assert !Selects(k, rule, q, usage) ==> Selected(k, rules, q, usage) == Selected(k, tail, q, usage);
      if !PassPredicate(k, rule, q) then ApplyPass(k, tail, q, usage, price)
      else
        match UsageAllowed(rule, usage, q.userId)
        case Failure(e) => Failure(e)
        case Success(allowed) =>
          if !allowed then ApplyPass(k, tail, q, usage, price)
          else
            var d := Discount(k, rule, price);
            match ApplyPass(k, tail, q, usage, price - d)
            case Failure(e) => Failure(e)
            case Success(rest) =>
              var entry := Applied(Some(rule.id), AuditLabel(k), d);
              var applied := [entry] + rest.applied;
              var sel := Selected(k, rules, q, usage);
              assert sel == [rule] + Selected(k, tail, q, usage);
              assert sel[0] == rule && sel[1..] == Selected(k, tail, q, usage);
              assert applied[0] == entry && applied[1..] == rest.applied;
              Success(PassResult(rest.price, applied))
  }

  lemma {:induction false} SumAmountsConcat(a: seq<Applied>, b: seq<Applied>)
    ensures SumAmounts(a + b) == SumAmounts(a) + SumAmounts(b)
    decreases |a|
  {
    if |a| == 0 {
      assert a + b == b;
    } else {
      assert (a + b)[0] == a[0] && (a + b)[1..] == a[1..] + b;
      SumAmountsConcat(a[1..], b);
    }
  }

  lemma {:induction false} LabelledIdsConcat(a: seq<Applied>, b: seq<Applied>, tag: string)
    ensures LabelledIds(a + b, tag) == LabelledIds(a, tag) + LabelledIds(b, tag)
    decreases |a|
  {
    if |a| == 0 {
      assert a + b == b;
    } else {
      var head := if a[0].kind == tag then [a[0].ruleId] else [];
      assert (a + b)[0] == a[0] && (a + b)[1..] == a[1..] + b;
      LabelledIdsConcat(a[1..], b, tag);
      assert LabelledIds(a + b, tag) == head + (LabelledIds(a[1..], tag) + LabelledIds(b, tag));
      assert LabelledIds(a, tag) == head + LabelledIds(a[1..], tag);
    }
  }

  /** Filtering a trail written by one pass by that pass's label keeps every
      entry; by any other label, none. */
  lemma {:induction false} LabelledIdsOfOnePass(a: seq<Applied>, tag: string, other: string)
    requires AllLabelled(a, tag)
    ensures LabelledIds(a, tag) == RuleIds(a)
    ensures other != tag ==> LabelledIds(a, other) == []
    decreases |a|
  {
    if |a| > 0 {
      LabelledIdsOfOnePass(a[1..], tag, other);
    }
  }

  /** Appending one pass's trail, whose rank is no lower than anything before
      it, keeps the trail ordered. */
  lemma OrderedAppend(a: seq<Applied>, b: seq<Applied>, tag: string)
    requires PassesOrdered(a)
    requires forall i :: 0 <= i < |a| ==> PassRank(a[i].kind) <= PassRank(tag)
    requires AllLabelled(b, tag)
    ensures PassesOrdered(a + b)
    ensures forall i :: 0 <= i < |a + b| ==> PassRank((a + b)[i].kind) <= PassRank(tag)
  {
  }

  /** Reference trail of one pass: each selected rule, in order, takes its
      discount off the price the entries before it left. */
  function PassTrail(k: RuleKind, sel: seq<PricingRule>, price: real): seq<Applied>
    decreases |sel|
  {
    if |sel| == 0 then []
    else
      var d := Discount(k, sel[0], price);
      [Applied(Some(sel[0].id), AuditLabel(k), d)] + PassTrail(k, sel[1..], price - d)
  }

  /** Reference trail of a whole quote: the four passes' trails in pass
      order, each starting from the price the earlier passes left. */
  function QuoteTrail(rules: seq<PricingRule>, q: Quote, usage: seq<UsageRow>, start: real): seq<Applied> {
    var s2 := PassEnd(Seasonal, Selected(Seasonal, rules, q, usage), start);
    var s3 := PassEnd(Bulk, Selected(Bulk, rules, q, usage), s2);
    var s4 := PassEnd(UserTier, Selected(UserTier, rules, q, usage), s3);
    PassTrail(Seasonal, Selected(Seasonal, rules, q, usage), start)
      + PassTrail(Bulk, Selected(Bulk, rules, q, usage), s2)
      + PassTrail(UserTier, Selected(UserTier, rules, q, usage), s3)
      + PassTrail(Promo, Selected(Promo, rules, q, usage), s4)
  }

  /** The price a pass's reference trail leaves. */
  function PassEnd(k: RuleKind, sel: seq<PricingRule>, price: real): real {
    price - SumAmounts(PassTrail(k, sel, price))
  }

  /** `a` is the reference trail of the quote from `start`. */
  predicate IsQuoteTrail(a: seq<Applied>, rules: seq<PricingRule>, q: Quote, usage: seq<UsageRow>, start: real) {
    a == QuoteTrail(rules, q, usage, start)
  }

  /** A pass's trail replays its selected rules exactly when it is the
      reference trail. */
  lemma {:induction false} ReplaysIsTrail(k: RuleKind, sel: seq<PricingRule>, a: seq<Applied>, price: real)
    ensures Replays(k, sel, a, price) <==> a == PassTrail(k, sel, price)
    decreases |a|
  {
    if |a| > 0 && |sel| > 0 {
      ReplaysIsTrail(k, sel[1..], a[1..], price - a[0].amount);
      var t := PassTrail(k, sel, price);
      if a == t {
        assert a[0] == t[0] && a[1..] == t[1..];
      }
      if Replays(k, sel, a, price) {
        assert a == [a[0]] + a[1..];
      }
    }
  }

  /** The four passes in their fixed order. */
  function ApplyAllPasses(rules: seq<PricingRule>, q: Quote, usage: seq<UsageRow>, start: real): (r: Result<PassResult>)
    ensures r.Failure? <==> RulesReject(rules, q, usage)
    ensures r.Failure? ==> r.error == UserIdRequired
    ensures r.Success? ==> r.value.price == start - SumAmounts(r.value.applied)
    ensures r.Success? ==> PassesOrdered(r.value.applied)
    ensures r.Success? ==>
      forall k :: LabelledIds(r.value.applied, AuditLabel(k)) == IdsOf(Selected(k, rules, q, usage))
  {
    RulesRejectCases(rules, q, usage);
    match ApplyPass(Seasonal, rules, q, usage, start)
    case Failure(e) => Failure(e)
    case Success(p1) =>
      match ApplyPass(Bulk, rules, q, usage, p1.price)
      case Failure(e) => Failure(e)
      case Success(p2) =>
        match ApplyPass(UserTier, rules, q, usage, p2.price)
        case Failure(e) => Failure(e)
        case Success(p3) =>
          match ApplyPass(Promo, rules, q, usage, p3.price)
          case Failure(e) => Failure(e)
          case Success(p4) =>
            var a := p1.applied + p2.applied + p3.applied + p4.applied;
            AllPassesPrice(start, p1, p2, p3, p4);
            AllPassesOrdered(rules, q, usage, start, p1, p2, p3, p4);
            AllPassesLabelled(rules, q, usage, start, p1, p2, p3, p4);
            Success(PassResult(p4.price, a))
  }

  /** The rules are rejected exactly when one of the four passes fails. */
  lemma RulesRejectCases(rules: seq<PricingRule>, q: Quote, usage: seq<UsageRow>)
    ensures RulesReject(rules, q, usage) <==>
      || PassFailsOn(Seasonal, rules, q, usage) || PassFailsOn(Bulk, rules, q, usage)
      || PassFailsOn(UserTier, rules, q, usage) || PassFailsOn(Promo, rules, q, usage)
  {
    if RulesReject(rules, q, usage) {
      var k :| PassFailsOn(k, rules, q, usage);
      assert k == Seasonal || k == Bulk || k == UserTier || k == Promo;
    }
  }

  lemma AllPassesPrice(start: real, p1: PassResult, p2: PassResult, p3: PassResult, p4: PassResult)
    requires p1.price == start - SumAmounts(p1.applied)
    requires p2.price == p1.price - SumAmounts(p2.applied)
    requires p3.price == p2.price - SumAmounts(p3.applied)
    requires p4.price == p3.price - SumAmounts(p4.applied)
    ensures p4.price == start - SumAmounts(p1.applied + p2.applied + p3.applied + p4.applied)
  {
    var a1, a2, a3, a4 := p1.applied, p2.applied, p3.applied, p4.applied;
    SumAmountsConcat(a1, a2);
    SumAmountsConcat(a1 + a2, a3);
    SumAmountsConcat(a1 + a2 + a3, a4);
  }

  lemma AllPassesOrdered(rules: seq<PricingRule>, q: Quote, usage: seq<UsageRow>, start: real,
                         p1: PassResult, p2: PassResult, p3: PassResult, p4: PassResult)
    requires Replays(Seasonal, Selected(Seasonal, rules, q, usage), p1.applied, start)
    requires Replays(Bulk, Selected(Bulk, rules, q, usage), p2.applied, p1.price)
    requires Replays(UserTier, Selected(UserTier, rules, q, usage), p3.applied, p2.price)
    requires Replays(Promo, Selected(Promo, rules, q, usage), p4.applied, p3.price)
    ensures PassesOrdered(p1.applied + p2.applied + p3.applied + p4.applied)
  {
    var a1, a2, a3, a4 := p1.applied, p2.applied, p3.applied, p4.applied;
    ReplayFacts(Seasonal, Selected(Seasonal, rules, q, usage), a1, start);
    ReplayFacts(Bulk, Selected(Bulk, rules, q, usage), a2, p1.price);
    ReplayFacts(UserTier, Selected(UserTier, rules, q, usage), a3, p2.price);
    ReplayFacts(Promo, Selected(Promo, rules, q, usage), a4, p3.price);
    OrderedFour(a1, a2, a3, a4);
  }

  /** Four trails, each labelled with its pass, concatenated in pass order. */
  lemma OrderedFour(a1: seq<Applied>, a2: seq<Applied>, a3: seq<Applied>, a4: seq<Applied>)
    requires AllLabelled(a1, AuditLabel(Seasonal)) && AllLabelled(a2, AuditLabel(Bulk))
    requires AllLabelled(a3, AuditLabel(UserTier)) && AllLabelled(a4, AuditLabel(Promo))
    ensures PassesOrdered(a1 + a2 + a3 + a4)
  {
    assert PassRank("SEASONAL") == 0 && PassRank("BULK") == 1;
    assert PassRank("USER_TIER") == 2 && PassRank("PROMO_CODE") == 3;
    OrderedAppend([], a1, "SEASONAL");
    assert [] + a1 == a1;
    OrderedAppend(a1, a2, "BULK");
    OrderedAppend(a1 + a2, a3, "USER_TIER");
    OrderedAppend(a1 + a2 + a3, a4, "PROMO_CODE");
  }

  lemma AllPassesLabelled(rules: seq<PricingRule>, q: Quote, usage: seq<UsageRow>, start: real,
                          p1: PassResult, p2: PassResult, p3: PassResult, p4: PassResult)
    requires Replays(Seasonal, Selected(Seasonal, rules, q, usage), p1.applied, start)
    requires Replays(Bulk, Selected(Bulk, rules, q, usage), p2.applied, p1.price)
    requires Replays(UserTier, Selected(UserTier, rules, q, usage), p3.applied, p2.price)
    requires Replays(Promo, Selected(Promo, rules, q, usage), p4.applied, p3.price)
    ensures forall k :: LabelledIds(p1.applied + p2.applied + p3.applied + p4.applied, AuditLabel(k))
                     == IdsOf(Selected(k, rules, q, usage))
  {
    var a1, a2, a3, a4 := p1.applied, p2.applied, p3.applied, p4.applied;
    ReplayFacts(Seasonal, Selected(Seasonal, rules, q, usage), a1, start);
    ReplayFacts(Bulk, Selected(Bulk, rules, q, usage), a2, p1.price);
    ReplayFacts(UserTier, Selected(UserTier, rules, q, usage), a3, p2.price);
    ReplayFacts(Promo, Selected(Promo, rules, q, usage), a4, p3.price);
    forall k
      ensures LabelledIds(a1 + a2 + a3 + a4, AuditLabel(k)) == IdsOf(Selected(k, rules, q, usage))
    {
      LabelledOfKind(k, a1, a2, a3, a4);
    }
  }

  lemma AllPassesTrail(rules: seq<PricingRule>, q: Quote, usage: seq<UsageRow>, start: real,
                       p1: PassResult, p2: PassResult, p3: PassResult, p4: PassResult)
    requires p1.price == start - SumAmounts(p1.applied)
    requires p2.price == p1.price - SumAmounts(p2.applied)
    requires p3.price == p2.price - SumAmounts(p3.applied)
    requires Replays(Seasonal, Selected(Seasonal, rules, q, usage), p1.applied, start)
    requires Replays(Bulk, Selected(Bulk, rules, q, usage), p2.applied, p1.price)
    requires Replays(UserTier, Selected(UserTier, rules, q, usage), p3.applied, p2.price)
    requires Replays(Promo, Selected(Promo, rules, q, usage), p4.applied, p3.price)
    ensures p1.applied + p2.applied + p3.applied + p4.applied == QuoteTrail(rules, q, usage, start)
  {
    ReplaysIsTrail(Seasonal, Selected(Seasonal, rules, q, usage), p1.applied, start);
    ReplaysIsTrail(Bulk, Selected(Bulk, rules, q, usage), p2.applied, p1.price);
    ReplaysIsTrail(UserTier, Selected(UserTier, rules, q, usage), p3.applied, p2.price);
    ReplaysIsTrail(Promo, Selected(Promo, rules, q, usage), p4.applied, p3.price);
  }

  /** A successful run of the passes writes exactly the reference trail:
      each discount is taken off the price the entries before it left,
      across pass boundaries too. */
  lemma AllPassesFollowTrail(rules: seq<PricingRule>, q: Quote, usage: seq<UsageRow>, start: real)
    ensures var r := ApplyAllPasses(rules, q, usage, start);
      r.Success? ==> IsQuoteTrail(r.value.applied, rules, q, usage, start)
  {
    var r1 := ApplyPass(Seasonal, rules, q, usage, start);
    if r1.Success? {
      var r2 := ApplyPass(Bulk, rules, q, usage, r1.value.price);
      if r2.Success? {
        var r3 := ApplyPass(UserTier, rules, q, usage, r2.value.price);
        if r3.Success? {
          var r4 := ApplyPass(Promo, rules, q, usage, r3.value.price);
          if r4.Success? {
            AllPassesTrail(rules, q, usage, start, r1.value, r2.value, r3.value, r4.value);
          }
        }
      }
    }
  }

  lemma AuditLabelsDistinct(k: RuleKind, k': RuleKind)
    ensures k != k' ==> AuditLabel(k) != AuditLabel(k')
  {
    assert |AuditLabel(Seasonal)| == 8 && |AuditLabel(Bulk)| == 4;
    assert |AuditLabel(UserTier)| == 9 && |AuditLabel(Promo)| == 10;
  }

  /** The entries of the whole trail carrying one pass's label are exactly
      that pass's entries. */
  lemma LabelledOfKind(k: RuleKind, a1: seq<Applied>, a2: seq<Applied>, a3: seq<Applied>, a4: seq<Applied>)
    requires AllLabelled(a1, AuditLabel(Seasonal)) && AllLabelled(a2, AuditLabel(Bulk))
    requires AllLabelled(a3, AuditLabel(UserTier)) && AllLabelled(a4, AuditLabel(Promo))
    ensures LabelledIds(a1 + a2 + a3 + a4, AuditLabel(k))
         == RuleIds(match k case Seasonal => a1 case Bulk => a2 case UserTier => a3 case Promo => a4)
  {
    var tag := AuditLabel(k);
    LabelledIdsConcat(a1, a2, tag);
    LabelledIdsConcat(a1 + a2, a3, tag);
    LabelledIdsConcat(a1 + a2 + a3, a4, tag);
    AuditLabelsDistinct(Seasonal, k);
    AuditLabelsDistinct(Bulk, k);
    AuditLabelsDistinct(UserTier, k);
    AuditLabelsDistinct(Promo, k);
    LabelledIdsOfOnePass(a1, AuditLabel(Seasonal), tag);
    LabelledIdsOfOnePass(a2, AuditLabel(Bulk), tag);
    LabelledIdsOfOnePass(a3, AuditLabel(UserTier), tag);
    LabelledIdsOfOnePass(a4, AuditLabel(Promo), tag);
  }

  // ---------------------------------------------------------------------
  // The quote

  datatype PriceResult = PriceResult(
    basePrice: real,
    variantAdjustment: real,
    appliedRules: seq<Applied>,
    finalUnitPrice: real,
    totalPrice: real)

  /** The quote's starting price: base price plus the variant's adjustment
      (no adjustment when no variant is given). */
  function StartPrice(s: State, productId: Id, variantId: Option<Id>): real
    requires productId in s.products
    requires variantId.Some? ==> variantId.value in s.variants
  {
    s.products[productId].basePrice + (if variantId.Some? then s.variants[variantId.value].priceAdjustment else 0.0)
  }

  function QuoteFor(s: State, now: int, productId: Id, variantId: Option<Id>, quantity: int,
                    userTier: Option<string>, promoCode: Option<string>, userId: Option<Id>): Quote
    requires productId in s.products
  {
    Quote(productId, variantId, s.products[productId].categoryId, quantity, userTier, promoCode, userId, now)
  }

  /** The product exists, and so does the variant when one is given. */
  predicate Resolves(s: State, productId: Id, variantId: Option<Id>) {
    productId in s.products && (variantId.Some? ==> variantId.value in s.variants)
  }

  /** `calculatePrice`. */
  function CalculatePrice(s: State, now: int, productId: Id, variantId: Option<Id>, quantity: int,
                          userTier: Option<string>, promoCode: Option<string>, userId: Option<Id>): (r: Result<PriceResult>)
    ensures productId !in s.products ==> r == Failure(ProductNotFound)
    ensures productId in s.products && variantId.Some? && variantId.value !in s.variants ==>
      r == Failure(VariantNotFound)
    ensures r.Failure? <==>
      || !Resolves(s, productId, variantId)
      || RulesReject(ActiveValidRules(s.rules, now),
                     QuoteFor(s, now, productId, variantId, quantity, userTier, promoCode, userId), s.usage)
    ensures r.Failure? && Resolves(s, productId, variantId) ==> r.error == UserIdRequired
    ensures r.Success? ==>
      && Resolves(s, productId, variantId)
      && r.value.basePrice == s.products[productId].basePrice
      && r.value.variantAdjustment == (if variantId.Some? then s.variants[variantId.value].priceAdjustment else 0.0)
    ensures r.Success? ==>
      && r.value.finalUnitPrice >= 0.0
      && (r.value.finalUnitPrice > 0.0 ==>
            r.value.finalUnitPrice == StartPrice(s, productId, variantId) - SumAmounts(r.value.appliedRules))
      && (r.value.finalUnitPrice == 0.0 ==>
            StartPrice(s, productId, variantId) - SumAmounts(r.value.appliedRules) <= 0.0)
    ensures r.Success? ==> r.value.totalPrice == LineTotal(r.value.finalUnitPrice, quantity)
    ensures r.Success? ==> PassesOrdered(r.value.appliedRules)
    ensures r.Success? ==>
      forall k :: LabelledIds(r.value.appliedRules, AuditLabel(k))
               == IdsOf(Selected(k, ActiveValidRules(s.rules, now),
                                 QuoteFor(s, now, productId, variantId, quantity, userTier, promoCode, userId), s.usage))
  {
    if productId !in s.products then Failure(ProductNotFound)
    else if variantId.Some? && variantId.value !in s.variants then Failure(VariantNotFound)
    else
      var product := s.products[productId];
      var adjustment := if variantId.Some? then s.variants[variantId.value].priceAdjustment else 0.0;
      var q := QuoteFor(s, now, productId, variantId, quantity, userTier, promoCode, userId);
      assert product.basePrice + adjustment == StartPrice(s, productId, variantId);
      PriceLine(product.basePrice, adjustment, ActiveValidRules(s.rules, now), q, s.usage)
  }

  /** A quote's audit trail is the reference trail of the valid rules from
      its start price (the base price plus the variant's adjustment, which
      the quote records), so its amounts compound over all four passes. */
  lemma QuoteFollowsTrail(s: State, now: int, productId: Id, variantId: Option<Id>, quantity: int,
                          userTier: Option<string>, promoCode: Option<string>, userId: Option<Id>)
    ensures var r := CalculatePrice(s, now, productId, variantId, quantity, userTier, promoCode, userId);
      r.Success? ==>
        IsQuoteTrail(r.value.appliedRules, ActiveValidRules(s.rules, now),
                     QuoteFor(s, now, productId, variantId, quantity, userTier, promoCode, userId), s.usage,
                     StartPrice(s, productId, variantId))
  {
    if Resolves(s, productId, variantId) {
      ResolvedQuoteFollowsTrail(s, now, productId, variantId, quantity, userTier, promoCode, userId);
    }
  }

  lemma ResolvedQuoteFollowsTrail(s: State, now: int, productId: Id, variantId: Option<Id>, quantity: int,
                                  userTier: Option<string>, promoCode: Option<string>, userId: Option<Id>)
    requires Resolves(s, productId, variantId)
    ensures var r := CalculatePrice(s, now, productId, variantId, quantity, userTier, promoCode, userId);
      r.Success? ==>
        IsQuoteTrail(r.value.appliedRules, ActiveValidRules(s.rules, now),
                     QuoteFor(s, now, productId, variantId, quantity, userTier, promoCode, userId), s.usage,
                     StartPrice(s, productId, variantId))
  {
    var base := s.products[productId].basePrice;
    var adjustment := if variantId.Some? then s.variants[variantId.value].priceAdjustment else 0.0;
    ResolvedQuoteIsPriceLine(s, now, productId, variantId, quantity, userTier, promoCode, userId);
    PriceLineTrailFrom(base, adjustment, ActiveValidRules(s.rules, now),
                       QuoteFor(s, now, productId, variantId, quantity, userTier, promoCode, userId), s.usage,
                       StartPrice(s, productId, variantId));
  }

  /** Once the product and the variant resolve, the quote is the priced line
      of their base price and adjustment under the valid rules. */
  lemma ResolvedQuoteIsPriceLine(s: State, now: int, productId: Id, variantId: Option<Id>, quantity: int,
                                 userTier: Option<string>, promoCode: Option<string>, userId: Option<Id>)
    requires Resolves(s, productId, variantId)
    ensures StartPrice(s, productId, variantId)
         == s.products[productId].basePrice
            + (if variantId.Some? then s.variants[variantId.value].priceAdjustment else 0.0)
    ensures CalculatePrice(s, now, productId, variantId, quantity, userTier, promoCode, userId)
         == PriceLine(s.products[productId].basePrice,
                      if variantId.Some? then s.variants[variantId.value].priceAdjustment else 0.0,
                      ActiveValidRules(s.rules, now),
                      QuoteFor(s, now, productId, variantId, quantity, userTier, promoCode, userId), s.usage)
  {
  }

  /** A priced line's trail property, with the start price given as any term
      equal to base price plus adjustment. */
  lemma PriceLineTrailFrom(basePrice: real, adjustment: real, rules: seq<PricingRule>, q: Quote, usage: seq<UsageRow>,
                           start: real)
    requires start == basePrice + adjustment
    ensures var r := PriceLine(basePrice, adjustment, rules, q, usage);
      r.Success? ==> IsQuoteTrail(r.value.appliedRules, rules, q, usage, start)
  {
    var r := PriceLine(basePrice, adjustment, rules, q, usage);
    var passes := ApplyAllPasses(rules, q, usage, basePrice + adjustment);
    AllPassesFollowTrail(rules, q, usage, basePrice + adjustment);
    if passes.Success? {
      assert IsQuoteTrail(passes.value.applied, rules, q, usage, start);
      assert r.Success? && r.value.appliedRules == passes.value.applied;
    } else {
      assert r.Failure?;
    }
  }

  /** Unit price times quantity. */
  function LineTotal(unitPrice: real, quantity: int): real {
    unitPrice * quantity as real
  }

  /** The quote once the product and the variant are resolved: the passes
      from the start price, then the clamp and the line total. */
  function PriceLine(basePrice: real, adjustment: real, rules: seq<PricingRule>, q: Quote, usage: seq<UsageRow>): (r: Result<PriceResult>)
    ensures r.Failure? <==> RulesReject(rules, q, usage)
    ensures r.Failure? ==> r.error == UserIdRequired
    ensures r.Success? ==> r.value.basePrice == basePrice && r.value.variantAdjustment == adjustment
    ensures r.Success? ==>
      && r.value.finalUnitPrice >= 0.0
      && (r.value.finalUnitPrice > 0.0 ==>
            r.value.finalUnitPrice == basePrice + adjustment - SumAmounts(r.value.appliedRules))
      && (r.value.finalUnitPrice == 0.0 ==> basePrice + adjustment - SumAmounts(r.value.appliedRules) <= 0.0)
    ensures r.Success? ==> r.value.totalPrice == LineTotal(r.value.finalUnitPrice, q.quantity)
    ensures r.Success? ==> PassesOrdered(r.value.appliedRules)
    ensures r.Success? ==>
      forall k :: LabelledIds(r.value.appliedRules, AuditLabel(k)) == IdsOf(Selected(k, rules, q, usage))
  {
    match ApplyAllPasses(rules, q, usage, basePrice + adjustment)
    case Failure(e) => Failure(e)
    case Success(p) =>
      var finalUnitPrice := if p.price > 0.0 then p.price else 0.0;
      var total := LineTotal(finalUnitPrice, q.quantity);
      Success(PriceResult(basePrice, adjustment, p.applied, finalUnitPrice, total))
  }

  // ---------------------------------------------------------------------
  // Consequences

  /** A rule whose per-user cap the user has already reached is skipped by
      every pass, whatever else matches. */
  lemma PerUserCapSkipsRule(k: RuleKind, rules: seq<PricingRule>, q: Quote, usage: seq<UsageRow>, rule: PricingRule)
    requires rule.usagePerUser.Some? && q.userId.Some?
    requires SumUsage(usage, rule.id, q.userId) >= rule.usagePerUser.value
    ensures rule !in Selected(k, rules, q, usage)
  {
  }

  /** A rule whose global cap is used up is skipped, and never asks for a
      user id. */
  lemma GlobalCapSkipsRule(k: RuleKind, rules: seq<PricingRule>, q: Quote, usage: seq<UsageRow>, rule: PricingRule)
    requires rule.usageLimit.Some? && SumUsage(usage, rule.id, None) >= rule.usageLimit.value
    ensures rule !in Selected(k, rules, q, usage)
    ensures !PassFails(k, rule, q, usage)
  {
  }

  /** A rule outside its validity window never reaches any pass. */
  lemma ExpiredRuleIgnored(s: State, now: int, q: Quote, k: RuleKind, rule: PricingRule)
    requires !ValidAt(rule, now)
    ensures rule !in Selected(k, ActiveValidRules(s.rules, now), q, s.usage)
  {
  }

  /** A worked quote: base price 100, one BULK rule of 10% from quantity 5
      targeting the product, five units: one audit entry of 10, unit price
      90, total 450. */
  lemma BulkQuoteExample()
    ensures
      var rule := PricingRule(7, Some("BULK"), Some(5), Some(10.0), None, None, None, Some("PRODUCT"), Some(1),
                              None, None, None, None, true);
      var s := State(map[1 := Product(100.0, None)], map[], [], map[], 0, map[], [rule], [], []);
      CalculatePrice(s, 0, 1, None, 5, None, None, None)
        == Success(PriceResult(100.0, 0.0, [Applied(Some(7), "BULK", 10.0)], 90.0, 450.0))
  {
    var rule := PricingRule(7, Some("BULK"), Some(5), Some(10.0), None, None, None, Some("PRODUCT"), Some(1),
                            None, None, None, None, true);
    var q := Quote(1, None, None, 5, None, None, None, 0);
    assert ActiveValidRules([rule], 0) == [rule];
    assert EqualsIgnoreCase("BULK", "BULK") && EqualsIgnoreCase("PRODUCT", "PRODUCT");
    assert !PassPredicate(Seasonal, rule, q) && !PassPredicate(UserTier, rule, q) && !PassPredicate(Promo, rule, q);
    assert PassPredicate(Bulk, rule, q);
    assert UsageAllowed(rule, [], None) == Success(true);
    assert Discount(Bulk, rule, 100.0) == 10.0;
    assert [rule][1..] == [];
    assert ApplyPass(Bulk, [], q, [], 90.0) == Success(PassResult(90.0, []));
    var bulk := ApplyPass(Bulk, [rule], q, [], 100.0);
    assert bulk.Success?;
    assert bulk.value.price == 90.0;
    assert bulk.value.applied == [Applied(Some(7), AuditLabel(Bulk), 10.0)] + [];
    assert [Applied(Some(7), AuditLabel(Bulk), 10.0)] + [] == [Applied(Some(7), "BULK", 10.0)];
    assert ApplyPass(Seasonal, [rule], q, [], 100.0) == Success(PassResult(100.0, []));
    assert ApplyPass(Bulk, [rule], q, [], 100.0) == Success(PassResult(90.0, [Applied(Some(7), "BULK", 10.0)]));
    assert ApplyPass(UserTier, [rule], q, [], 90.0) == Success(PassResult(90.0, []));
    assert ApplyPass(Promo, [rule], q, [], 90.0) == Success(PassResult(90.0, []));
    var e := Applied(Some(7), "BULK", 10.0);
    assert [] + [e] + [] + [] == [e];
    assert ApplyAllPasses([rule], q, [], 100.0) == Success(PassResult(90.0, [e]));
    var s := State(map[1 := Product(100.0, None)], map[], [], map[], 0, map[], [rule], [], []);
    assert QuoteFor(s, 0, 1, None, 5, None, None, None) == q;
    assert 90.0 * 5 as real == 450.0;
  }

  /** Quoting reads the catalogue, the rules, the usage counters and the
      variant's price adjustment, and nothing else of the store. */
  lemma QuoteReadsOnly(s: State, s': State, now: int, productId: Id, variantId: Option<Id>, quantity: int,
                       userTier: Option<string>, promoCode: Option<string>, userId: Option<Id>)
    requires s'.products == s.products && s'.rules == s.rules && s'.usage == s.usage
    requires variantId.Some? ==>
      && (variantId.value in s'.variants <==> variantId.value in s.variants)
      && (variantId.value in s.variants ==>
            s'.variants[variantId.value].priceAdjustment == s.variants[variantId.value].priceAdjustment)
    ensures CalculatePrice(s', now, productId, variantId, quantity, userTier, promoCode, userId)
         == CalculatePrice(s, now, productId, variantId, quantity, userTier, promoCode, userId)
  {
    if Resolves(s, productId, variantId) {
      assert QuoteFor(s', now, productId, variantId, quantity, userTier, promoCode, userId)
          == QuoteFor(s, now, productId, variantId, quantity, userTier, promoCode, userId);
    }
  }
}
