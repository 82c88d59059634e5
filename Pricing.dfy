/** The pricing engine: three base amounts (court, equipment, coach) for the booked
    duration, plus one adjustment per active pricing rule that matches the booking.
    Amounts are exact reals; the final rounding to cents is not modelled. */
module Pricing {
  import opened Wrappers

  datatype AppliesTo = Court | Equipment | Coach | Overall

  datatype RuleType = Multiplier | Flat

  /** A row of pricing_rules. A None filter field is SQL NULL: "any". */
  datatype PricingRule = PricingRule(
    id: int,
    name: string,
    appliesTo: AppliesTo,
    isWeekend: Option<bool>,
    startHour: Option<int>,
    endHour: Option<int>,
    indoorOnly: Option<bool>,
    ruleType: RuleType,
    value: real)

  datatype EquipmentSelection = EquipmentSelection(equipmentTypeId: int, quantity: int, pricePerUnit: real)

  /** What the engine reads of the court. */
  datatype CourtRate = CourtRate(baseHourlyRate: real, isIndoor: bool)

  datatype Adjustment = Adjustment(ruleId: int, name: string, appliesTo: AppliesTo, amount: real)

  datatype PriceBreakdown = PriceBreakdown(
    baseCourt: real,
    baseEquipment: real,
    baseCoach: real,
    adjustments: seq<Adjustment>,
    total: real)

  /** The three base amounts a rule can be applied to. */
  datatype Bases = Bases(court: real, equipment: real, coach: real)

  /** Sunday (0) or Saturday (6). */
  predicate IsWeekend(dayOfWeek: int)
  {
    dayOfWeek in [0, 6]
  }

  /** Sum of unit price times quantity over the selections. */
  function EquipmentBase(selections: seq<EquipmentSelection>): real
  {
    if selections == [] then 0.0
    else selections[0].pricePerUnit * selections[0].quantity as real + EquipmentBase(selections[1..])
  }

  function ComputeBases(hours: real, court: CourtRate, equipment: seq<EquipmentSelection>, coach: Option<real>): Bases
  {
    Bases(
      court.baseHourlyRate * hours,
      EquipmentBase(equipment),
      if coach.Some? then coach.value * hours else 0.0)
  }

  /** The base a rule applies to; OVERALL is the sum of the three. */
  function BaseFor(appliesTo: AppliesTo, b: Bases): real
  {
    match appliesTo
    case Court => b.court
    case Equipment => b.equipment
    case Coach => b.coach
    case Overall => b.court + b.equipment + b.coach
  }

  /** The weekend, hour-window and indoor-only filters of one rule. */
  predicate RuleMatches(rule: PricingRule, weekend: bool, hour: int, isIndoor: bool)
  {
    && (rule.isWeekend.None? || rule.isWeekend.value == weekend)
    && (rule.startHour.None? || rule.endHour.None?
        || (rule.startHour.value <= hour && hour < rule.endHour.value))
    && !(rule.indoorOnly == Some(true) && !isIndoor)
  }

  /** The adjustment of a rule with the given base: base * (value - 1) or value. */
  function AmountFor(rule: PricingRule, base: real): real
  {
    match rule.ruleType
    case Multiplier => base * (rule.value - 1.0)
    case Flat => rule.value
  }

  /** The adjustment one rule records, if any. */
  function RuleAdjustment(rule: PricingRule, weekend: bool, hour: int, isIndoor: bool, b: Bases): Option<Adjustment>
  {
    if !RuleMatches(rule, weekend, hour, isIndoor) then None
    else
      var base := BaseFor(rule.appliesTo, b);
      if base <= 0.0 then None
      else
        var amount := AmountFor(rule, base);
        if amount == 0.0 then None
        else Some(Adjustment(rule.id, rule.name, rule.appliesTo, amount))
  }

  function OptionToSeq<T>(o: Option<T>): seq<T>
  {
    if o.Some? then [o.value] else []
  }

  /** The adjustments recorded by the rules, in rule order. */
  function Adjustments(rules: seq<PricingRule>, weekend: bool, hour: int, isIndoor: bool, b: Bases): seq<Adjustment>
  {
    if rules == [] then []
    else
      var n := |rules| - 1;
      Adjustments(rules[..n], weekend, hour, isIndoor, b) + OptionToSeq(RuleAdjustment(rules[n], weekend, hour, isIndoor, b))
  }

  /** Sum of the amounts. */
  function SumAmounts(adjustments: seq<Adjustment>): real
  {
    if adjustments == [] then 0.0
    else
      var n := |adjustments| - 1;
      SumAmounts(adjustments[..n]) + adjustments[n].amount
  }

  /** The price breakdown of a booking of `hours` hours starting on `dayOfWeek` at
      `hour` o'clock (local time). */
  function Price(
    hours: real, dayOfWeek: int, hour: int, court: CourtRate,
    equipment: seq<EquipmentSelection>, coach: Option<real>, rules: seq<PricingRule>): PriceBreakdown
  {
    var b := ComputeBases(hours, court, equipment, coach);
    var adjustments := Adjustments(rules, IsWeekend(dayOfWeek), hour, court.isIndoor, b);
    PriceBreakdown(b.court, b.equipment, b.coach, adjustments,
                   b.court + b.equipment + b.coach + SumAmounts(adjustments))
  }

  /** One iteration of the rule loop: None where the loop body `continue`s, the
      adjustment it pushes otherwise. */
  method ApplyRule(rule: PricingRule, isWeekend: bool, hour: int, court: CourtRate,
                   baseCourt: real, baseEquipment: real, baseCoach: real)
    returns (adjustment: Option<Adjustment>)
    ensures adjustment == RuleAdjustment(rule, isWeekend, hour, court.isIndoor, Bases(baseCourt, baseEquipment, baseCoach))
  {
    if rule.isWeekend.Some? {
      if rule.isWeekend.value != isWeekend {
        return None;
      }
    }
    if rule.startHour.Some? && rule.endHour.Some? {
      var withinHourRange := hour >= rule.startHour.value && hour < rule.endHour.value;
      if !withinHourRange {
        return None;
      }
    }
    if rule.indoorOnly == Some(true) && !court.isIndoor {
      return None;
    }
    var baseForRule := 0.0;
    match rule.appliesTo {
      case Court => baseForRule := baseCourt;
      case Equipment => baseForRule := baseEquipment;
      case Coach => baseForRule := baseCoach;
      case Overall => baseForRule := baseCourt + baseEquipment + baseCoach;
    }
    if baseForRule <= 0.0 {
      return None;
    }
    var amount := 0.0;
    if rule.ruleType == Multiplier {
      amount := baseForRule * (rule.value - 1.0);
    } else if rule.ruleType == Flat {
      amount := rule.value;
    }
    if amount == 0.0 {
      return None;
    }
    assert RuleMatches(rule, isWeekend, hour, court.isIndoor);
    assert baseForRule == BaseFor(rule.appliesTo, Bases(baseCourt, baseEquipment, baseCoach));
    assert amount == AmountFor(rule, baseForRule);
    return Some(Adjustment(rule.id, rule.name, rule.appliesTo, amount));
  }

  /** Taking one more rule appends what that rule records. */
  lemma AdjustmentsStep(rules: seq<PricingRule>, i: int, weekend: bool, hour: int, isIndoor: bool, b: Bases)
    requires 0 <= i < |rules|
    ensures Adjustments(rules[..i + 1], weekend, hour, isIndoor, b)
            == Adjustments(rules[..i], weekend, hour, isIndoor, b) + OptionToSeq(RuleAdjustment(rules[i], weekend, hour, isIndoor, b))
  {
    assert rules[..i + 1][..i] == rules[..i];
  }

  /** The pricing engine: computes the bases, walks the rules in order skipping those
      that do not apply, and sums everything into a total. */
  method CalculateBookingPrice(
    hours: real, dayOfWeek: int, hour: int, court: CourtRate,
    equipment: seq<EquipmentSelection>, coach: Option<real>, rules: seq<PricingRule>)
    returns (p: PriceBreakdown)
    ensures p == Price(hours, dayOfWeek, hour, court, equipment, coach, rules)
  {
    var baseCourt := court.baseHourlyRate * hours;
    var baseEquipment := EquipmentBase(equipment);
    var baseCoach := if coach.Some? then coach.value * hours else 0.0;
    var isWeekend := dayOfWeek in [0, 6];
    ghost var b := ComputeBases(hours, court, equipment, coach);
    assert b == Bases(baseCourt, baseEquipment, baseCoach);
    assert isWeekend == IsWeekend(dayOfWeek);

    var adjustments: seq<Adjustment> := [];
    for i := 0 to |rules|
      invariant adjustments == Adjustments(rules[..i], isWeekend, hour, court.isIndoor, b)
    {
      var adjustment := ApplyRule(rules[i], isWeekend, hour, court, baseCourt, baseEquipment, baseCoach);
      AdjustmentsStep(rules, i, isWeekend, hour, court.isIndoor, b);
      if adjustment.Some? {
        adjustments := adjustments + [adjustment.value];
      }
    }
    assert rules[..|rules|] == rules;
    var totalAdjustments := SumAmounts(adjustments);
    var total := baseCourt + baseEquipment + baseCoach + totalAdjustments;
    p := PriceBreakdown(baseCourt, baseEquipment, baseCoach, adjustments, total);
  }

  // ----- Properties of the pricing engine -----

  /** The rule query orders rules by ascending id; ids are primary keys. */
  predicate AscendingIds(rules: seq<PricingRule>)
  {
    forall i, j :: 0 <= i < j < |rules| ==> rules[i].id < rules[j].id
  }

  /** Sum over the rules, in order, of the amount each one contributes (0 when skipped). */
  function Contributions(rules: seq<PricingRule>, weekend: bool, hour: int, isIndoor: bool, b: Bases): real
  {
    if rules == [] then 0.0
    else
      var c := RuleAdjustment(rules[0], weekend, hour, isIndoor, b);
      (if c.Some? then c.value.amount else 0.0) + Contributions(rules[1..], weekend, hour, isIndoor, b)
  }

  lemma {:induction false} ContributionsSnoc(rules: seq<PricingRule>, r: PricingRule, weekend: bool, hour: int, isIndoor: bool, b: Bases)
    ensures Contributions(rules + [r], weekend, hour, isIndoor, b)
         == Contributions(rules, weekend, hour, isIndoor, b) + SumAmounts(OptionToSeq(RuleAdjustment(r, weekend, hour, isIndoor, b)))
  {
    var c := RuleAdjustment(r, weekend, hour, isIndoor, b);
    assert SumAmounts(OptionToSeq(c)) == if c.Some? then c.value.amount else 0.0 by {
      if c.Some? {
        assert OptionToSeq(c)[..0] == [];
      }
    }
    if rules == [] {
      assert [r][1..] == [];
    } else {
      assert (rules + [r])[1..] == rules[1..] + [r];
      ContributionsSnoc(rules[1..], r, weekend, hour, isIndoor, b);
    }
  }

  lemma {:induction false} SumAmountsAppend(xs: seq<Adjustment>, ys: seq<Adjustment>)
    ensures SumAmounts(xs + ys) == SumAmounts(xs) + SumAmounts(ys)
  {
    if ys != [] {
      var n := |ys| - 1;
      assert (xs + ys)[..|xs| + n] == xs + ys[..n];
      SumAmountsAppend(xs, ys[..n]);
    } else {
      assert xs + ys == xs;
    }
  }

  lemma {:induction false} SumOfAdjustmentsIsContributions(rules: seq<PricingRule>, weekend: bool, hour: int, isIndoor: bool, b: Bases)
    ensures SumAmounts(Adjustments(rules, weekend, hour, isIndoor, b)) == Contributions(rules, weekend, hour, isIndoor, b)
  {
    if rules != [] {
      var n := |rules| - 1;
      SumOfAdjustmentsIsContributions(rules[..n], weekend, hour, isIndoor, b);
      SumAmountsAppend(Adjustments(rules[..n], weekend, hour, isIndoor, b), OptionToSeq(RuleAdjustment(rules[n], weekend, hour, isIndoor, b)));
      ContributionsSnoc(rules[..n], rules[n], weekend, hour, isIndoor, b);
      assert rules[..n] + [rules[n]] == rules;
    }
  }

  /** Before rounding, the total is the three bases plus what every rule contributes. */
  lemma TotalIsBasesPlusContributions(
    hours: real, dayOfWeek: int, hour: int, court: CourtRate,
    equipment: seq<EquipmentSelection>, coach: Option<real>, rules: seq<PricingRule>)
    ensures var p := Price(hours, dayOfWeek, hour, court, equipment, coach, rules);
            p.total == p.baseCourt + p.baseEquipment + p.baseCoach
                       + Contributions(rules, IsWeekend(dayOfWeek), hour, court.isIndoor, ComputeBases(hours, court, equipment, coach))
  {
    SumOfAdjustmentsIsContributions(rules, IsWeekend(dayOfWeek), hour, court.isIndoor, ComputeBases(hours, court, equipment, coach));
  }

  lemma {:induction false} NothingRecorded(rules: seq<PricingRule>, weekend: bool, hour: int, isIndoor: bool, b: Bases)
    requires forall r :: r in rules ==> RuleAdjustment(r, weekend, hour, isIndoor, b).None?
    ensures Adjustments(rules, weekend, hour, isIndoor, b) == []
  {
    if rules != [] {
      var n := |rules| - 1;
      assert rules[n] in rules;
      assert forall r :: r in rules[..n] ==> r in rules;
      NothingRecorded(rules[..n], weekend, hour, isIndoor, b);
    }
  }

  /** With no applicable rule there are no adjustments and the total is the sum of the bases. */
  lemma NoApplicableRuleTotalIsBases(
    hours: real, dayOfWeek: int, hour: int, court: CourtRate,
    equipment: seq<EquipmentSelection>, coach: Option<real>, rules: seq<PricingRule>)
    requires forall r :: r in rules ==>
      RuleAdjustment(r, IsWeekend(dayOfWeek), hour, court.isIndoor, ComputeBases(hours, court, equipment, coach)).None?
    ensures var p := Price(hours, dayOfWeek, hour, court, equipment, coach, rules);
            p.adjustments == [] && p.total == p.baseCourt + p.baseEquipment + p.baseCoach
  {
    NothingRecorded(rules, IsWeekend(dayOfWeek), hour, court.isIndoor, ComputeBases(hours, court, equipment, coach));
  }

  lemma {:induction false} AdjustmentsSound(rules: seq<PricingRule>, weekend: bool, hour: int, isIndoor: bool, b: Bases)
    ensures forall a :: a in Adjustments(rules, weekend, hour, isIndoor, b) ==>
              exists k :: 0 <= k < |rules| && RuleAdjustment(rules[k], weekend, hour, isIndoor, b) == Some(a)
  {
    if rules != [] {
      var n := |rules| - 1;
      AdjustmentsSound(rules[..n], weekend, hour, isIndoor, b);
      forall a | a in Adjustments(rules, weekend, hour, isIndoor, b)
        ensures exists k :: 0 <= k < |rules| && RuleAdjustment(rules[k], weekend, hour, isIndoor, b) == Some(a)
      {
        if a in Adjustments(rules[..n], weekend, hour, isIndoor, b) {
          var k :| 0 <= k < n && RuleAdjustment(rules[..n][k], weekend, hour, isIndoor, b) == Some(a);
          assert rules[..n][k] == rules[k];
        } else {
          assert RuleAdjustment(rules[n], weekend, hour, isIndoor, b) == Some(a);
        }
      }
    }
  }

  lemma {:induction false} AdjustmentsComplete(rules: seq<PricingRule>, k: nat, weekend: bool, hour: int, isIndoor: bool, b: Bases)
    requires k < |rules| && RuleAdjustment(rules[k], weekend, hour, isIndoor, b).Some?
    ensures RuleAdjustment(rules[k], weekend, hour, isIndoor, b).value in Adjustments(rules, weekend, hour, isIndoor, b)
  {
    var n := |rules| - 1;
    if k < n {
      assert rules[..n][k] == rules[k];
      AdjustmentsComplete(rules[..n], k, weekend, hour, isIndoor, b);
    }
  }

  /** Every recorded adjustment is the adjustment of a rule that passed all filters
      and had a positive base: it carries that rule's id, name and applies_to, and its
      amount is base * (value - 1) for MULTIPLIER, value for FLAT, never zero. */
  lemma AdjustmentsComeFromRules(
    hours: real, dayOfWeek: int, hour: int, court: CourtRate,
    equipment: seq<EquipmentSelection>, coach: Option<real>, rules: seq<PricingRule>)
    ensures var b := ComputeBases(hours, court, equipment, coach);
            forall a :: a in Price(hours, dayOfWeek, hour, court, equipment, coach, rules).adjustments ==>
              exists r :: r in rules
                && RuleMatches(r, IsWeekend(dayOfWeek), hour, court.isIndoor)
                && BaseFor(r.appliesTo, b) > 0.0
                && a == Adjustment(r.id, r.name, r.appliesTo, AmountFor(r, BaseFor(r.appliesTo, b)))
                && a.amount != 0.0
  {
    var b := ComputeBases(hours, court, equipment, coach);
    AdjustmentsSound(rules, IsWeekend(dayOfWeek), hour, court.isIndoor, b);
    forall a | a in Price(hours, dayOfWeek, hour, court, equipment, coach, rules).adjustments
      ensures exists r :: r in rules
                && RuleMatches(r, IsWeekend(dayOfWeek), hour, court.isIndoor)
                && BaseFor(r.appliesTo, b) > 0.0
                && a == Adjustment(r.id, r.name, r.appliesTo, AmountFor(r, BaseFor(r.appliesTo, b)))
                && a.amount != 0.0
    {
      var k :| 0 <= k < |rules| && RuleAdjustment(rules[k], IsWeekend(dayOfWeek), hour, court.isIndoor, b) == Some(a);
      assert rules[k] in rules;
    }
  }

  /** A rule that passes every filter, has a positive base and a non-zero amount is
      recorded with that amount. */
  lemma MatchingRuleIsRecorded(
    hours: real, dayOfWeek: int, hour: int, court: CourtRate,
    equipment: seq<EquipmentSelection>, coach: Option<real>, rules: seq<PricingRule>, r: PricingRule)
    requires r in rules
    requires RuleMatches(r, IsWeekend(dayOfWeek), hour, court.isIndoor)
    requires BaseFor(r.appliesTo, ComputeBases(hours, court, equipment, coach)) > 0.0
    requires AmountFor(r, BaseFor(r.appliesTo, ComputeBases(hours, court, equipment, coach))) != 0.0
    ensures Adjustment(r.id, r.name, r.appliesTo, AmountFor(r, BaseFor(r.appliesTo, ComputeBases(hours, court, equipment, coach))))
            in Price(hours, dayOfWeek, hour, court, equipment, coach, rules).adjustments
  {
    var k :| 0 <= k < |rules| && rules[k] == r;
    AdjustmentsComplete(rules, k, IsWeekend(dayOfWeek), hour, court.isIndoor, ComputeBases(hours, court, equipment, coach));
  }

  /** With rule ids unique, a rule whose adjustment is None leaves no adjustment with its id. */
  lemma SkippedRuleLeavesNoTrace(
    hours: real, dayOfWeek: int, hour: int, court: CourtRate,
    equipment: seq<EquipmentSelection>, coach: Option<real>, rules: seq<PricingRule>, r: PricingRule)
    requires AscendingIds(rules) && r in rules
    requires RuleAdjustment(r, IsWeekend(dayOfWeek), hour, court.isIndoor, ComputeBases(hours, court, equipment, coach)).None?
    ensures forall a :: a in Price(hours, dayOfWeek, hour, court, equipment, coach, rules).adjustments ==> a.ruleId != r.id
  {
    var b := ComputeBases(hours, court, equipment, coach);
    AdjustmentsSound(rules, IsWeekend(dayOfWeek), hour, court.isIndoor, b);
    var j :| 0 <= j < |rules| && rules[j] == r;
    forall a | a in Price(hours, dayOfWeek, hour, court, equipment, coach, rules).adjustments
      ensures a.ruleId != r.id
    {
      var k :| 0 <= k < |rules| && RuleAdjustment(rules[k], IsWeekend(dayOfWeek), hour, court.isIndoor, b) == Some(a);
      assert a.ruleId == rules[k].id;
      assert k != j;
    }
  }

  /** A rule whose weekend flag is set and differs from the booking's contributes nothing. */
  lemma WeekendMismatchSkipped(
    hours: real, dayOfWeek: int, hour: int, court: CourtRate,
    equipment: seq<EquipmentSelection>, coach: Option<real>, rules: seq<PricingRule>, r: PricingRule)
    requires AscendingIds(rules) && r in rules
    requires r.isWeekend.Some? && r.isWeekend.value != (dayOfWeek == 0 || dayOfWeek == 6)
    ensures forall a :: a in Price(hours, dayOfWeek, hour, court, equipment, coach, rules).adjustments ==> a.ruleId != r.id
  {
    SkippedRuleLeavesNoTrace(hours, dayOfWeek, hour, court, equipment, coach, rules, r);
  }

  /** A rule with both hour bounds set contributes nothing unless start_hour <= hour < end_hour. */
  lemma HourWindowSkipped(
    hours: real, dayOfWeek: int, hour: int, court: CourtRate,
    equipment: seq<EquipmentSelection>, coach: Option<real>, rules: seq<PricingRule>, r: PricingRule)
    requires AscendingIds(rules) && r in rules
    requires r.startHour.Some? && r.endHour.Some?
    requires !(r.startHour.value <= hour < r.endHour.value)
    ensures forall a :: a in Price(hours, dayOfWeek, hour, court, equipment, coach, rules).adjustments ==> a.ruleId != r.id
  {
    SkippedRuleLeavesNoTrace(hours, dayOfWeek, hour, court, equipment, coach, rules, r);
  }

  /** An indoor-only rule never applies to an outdoor court. */
  lemma IndoorOnlySkippedOutdoors(
    hours: real, dayOfWeek: int, hour: int, court: CourtRate,
    equipment: seq<EquipmentSelection>, coach: Option<real>, rules: seq<PricingRule>, r: PricingRule)
    requires AscendingIds(rules) && r in rules
    requires r.indoorOnly == Some(true) && !court.isIndoor
    ensures forall a :: a in Price(hours, dayOfWeek, hour, court, equipment, coach, rules).adjustments ==> a.ruleId != r.id
  {
    SkippedRuleLeavesNoTrace(hours, dayOfWeek, hour, court, equipment, coach, rules, r);
  }

  /** A rule whose base is zero or negative contributes nothing, FLAT rules included. */
  lemma NonPositiveBaseSkipped(
    hours: real, dayOfWeek: int, hour: int, court: CourtRate,
    equipment: seq<EquipmentSelection>, coach: Option<real>, rules: seq<PricingRule>, r: PricingRule)
    requires AscendingIds(rules) && r in rules
    requires BaseFor(r.appliesTo, ComputeBases(hours, court, equipment, coach)) <= 0.0
    ensures forall a :: a in Price(hours, dayOfWeek, hour, court, equipment, coach, rules).adjustments ==> a.ruleId != r.id
  {
    SkippedRuleLeavesNoTrace(hours, dayOfWeek, hour, court, equipment, coach, rules, r);
  }

  /** A MULTIPLIER of exactly 1 (or a FLAT of 0) is dropped. */
  lemma ZeroAdjustmentDropped(
    hours: real, dayOfWeek: int, hour: int, court: CourtRate,
    equipment: seq<EquipmentSelection>, coach: Option<real>, rules: seq<PricingRule>, r: PricingRule)
    requires AscendingIds(rules) && r in rules
    requires (r.ruleType == Multiplier && r.value == 1.0) || (r.ruleType == Flat && r.value == 0.0)
    ensures forall a :: a in Price(hours, dayOfWeek, hour, court, equipment, coach, rules).adjustments ==> a.ruleId != r.id
  {
    SkippedRuleLeavesNoTrace(hours, dayOfWeek, hour, court, equipment, coach, rules, r);
  }

  predicate AscendingRuleIds(adjustments: seq<Adjustment>)
  {
    forall i, j :: 0 <= i < j < |adjustments| ==> adjustments[i].ruleId < adjustments[j].ruleId
  }

  lemma {:induction false} AdjustmentIdsAscend(rules: seq<PricingRule>, weekend: bool, hour: int, isIndoor: bool, b: Bases)
    requires AscendingIds(rules)
    ensures AscendingRuleIds(Adjustments(rules, weekend, hour, isIndoor, b))
  {
    if rules != [] {
      var n := |rules| - 1;
      var prefix := Adjustments(rules[..n], weekend, hour, isIndoor, b);
      var last := OptionToSeq(RuleAdjustment(rules[n], weekend, hour, isIndoor, b));
      AdjustmentIdsAscend(rules[..n], weekend, hour, isIndoor, b);
      AdjustmentsSound(rules[..n], weekend, hour, isIndoor, b);
      forall i | 0 <= i < |prefix| ensures prefix[i].ruleId < rules[n].id {
        assert prefix[i] in prefix;
        var k :| 0 <= k < n && RuleAdjustment(rules[..n][k], weekend, hour, isIndoor, b) == Some(prefix[i]);
        assert rules[..n][k] == rules[k];
      }
      assert forall a :: a in last ==> a.ruleId == rules[n].id;
      var adj := prefix + last;
      assert adj == Adjustments(rules, weekend, hour, isIndoor, b);
      forall i, j | 0 <= i < j < |adj| ensures adj[i].ruleId < adj[j].ruleId {
        if j < |prefix| {
          assert adj[i] == prefix[i] && adj[j] == prefix[j];
          assert prefix[i].ruleId < prefix[j].ruleId;
        } else {
          assert |last| <= 1;
          assert i < |prefix|;
          assert adj[i] == prefix[i];
          assert prefix[i].ruleId < rules[n].id;
          assert adj[j] in last;
          assert adj[j].ruleId == rules[n].id;
        }
      }
    }
  }

  /** Adjustments keep the order of the rules: with rules in ascending id order, the
      recorded adjustments are in ascending ruleId order. */
  lemma AdjustmentsFollowRuleOrder(
    hours: real, dayOfWeek: int, hour: int, court: CourtRate,
    equipment: seq<EquipmentSelection>, coach: Option<real>, rules: seq<PricingRule>)
    requires AscendingIds(rules)
    ensures AscendingRuleIds(Price(hours, dayOfWeek, hour, court, equipment, coach, rules).adjustments)
  {
    AdjustmentIdsAscend(rules, IsWeekend(dayOfWeek), hour, court.isIndoor, ComputeBases(hours, court, equipment, coach));
  }

  lemma {:induction false} EquipmentBaseAppend(xs: seq<EquipmentSelection>, ys: seq<EquipmentSelection>)
    ensures EquipmentBase(xs + ys) == EquipmentBase(xs) + EquipmentBase(ys)
  {
    if xs == [] {
      assert xs + ys == ys;
    } else {
      assert (xs + ys)[1..] == xs[1..] + ys;
      EquipmentBaseAppend(xs[1..], ys);
    }
  }

  /** The equipment base is never negative when unit prices and quantities are not. */
  lemma {:induction false} EquipmentBaseNonNegative(selections: seq<EquipmentSelection>)
    requires forall s :: s in selections ==> s.pricePerUnit >= 0.0 && s.quantity >= 0
    ensures EquipmentBase(selections) >= 0.0
  {
    if selections != [] {
      var s := selections[0];
      assert s in selections;
      assert s.pricePerUnit * s.quantity as real >= 0.0;
      EquipmentBaseNonNegative(selections[1..]);
    }
  }

  /** Base 400 with a 1.5 multiplier gives +200. */
  lemma MultiplierExample(rule: PricingRule)
    requires rule.ruleType == Multiplier && rule.value == 1.5
    ensures AmountFor(rule, 400.0) == 200.0
  {
  }

  /** A 2-hour indoor booking at 400/hour with nothing else and no rules costs 800. */
  lemma CourtOnlyExample(dayOfWeek: int, hour: int)
    ensures var p := Price(2.0, dayOfWeek, hour, CourtRate(400.0, true), [], None, []);
            && p.baseCourt == 800.0 && p.baseEquipment == 0.0 && p.baseCoach == 0.0
            && p.adjustments == [] && p.total == 800.0
  {
  }

  /** The same booking with a weekend COURT multiplier of 1.5 starting on a Saturday
      gets +400 and costs 1200. */
  lemma SaturdayMultiplierExample(rule: PricingRule, hour: int, p: PriceBreakdown)
    requires rule == PricingRule(1, rule.name, Court, Some(true), None, None, None, Multiplier, 1.5)
    requires p == Price(2.0, 6, hour, CourtRate(400.0, true), [], None, [rule])
    ensures p.adjustments == [Adjustment(1, rule.name, Court, 400.0)] && p.total == 1200.0
  {
    var b := ComputeBases(2.0, CourtRate(400.0, true), [], None);
    assert b == Bases(800.0, 0.0, 0.0);
    assert IsWeekend(6);
    assert RuleMatches(rule, true, hour, true);
    assert BaseFor(rule.appliesTo, b) == 800.0;
    assert AmountFor(rule, 800.0) == 800.0 * 0.5 == 400.0;
    var a := Adjustment(1, rule.name, Court, 400.0);
    calc {
      RuleAdjustment(rule, true, hour, true, b);
      Some(Adjustment(rule.id, rule.name, rule.appliesTo, AmountFor(rule, 800.0)));
      Some(a);
    }
    assert [rule][..0] == [];
    assert Adjustments([rule], true, hour, true, b) == [] + OptionToSeq(Some(a)) == [a];
    assert [a][..0] == [];
    assert SumAmounts([a]) == 400.0;
  }

  /** On a Tuesday the weekend rule is skipped and the booking costs 800. */
  lemma TuesdayMultiplierExample(hour: int, name: string)
    ensures var rule := PricingRule(1, name, Court, Some(true), None, None, None, Multiplier, 1.5);
            var p := Price(2.0, 2, hour, CourtRate(400.0, true), [], None, [rule]);
            p.adjustments == [] && p.total == 800.0
  {
    var rule := PricingRule(1, name, Court, Some(true), None, None, None, Multiplier, 1.5);
    var b := ComputeBases(2.0, CourtRate(400.0, true), [], None);
    assert b == Bases(800.0, 0.0, 0.0);
    assert !IsWeekend(2);
    assert RuleAdjustment(rule, false, hour, true, b) == None;
    assert [rule][..0] == [];
    assert Adjustments([rule], false, hour, true, b) == [];
  }
}
