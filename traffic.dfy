/**
 * The traffic model of the booking flow: threshold ladders that turn a
 * percentage or a usage count into a tier, fixed day-of-week and
 * hour-of-day predictions, the 70/30 weighted combination of an observed and
 * a predicted tier, and the classification of equipment by name.
 */
module Traffic {
  import opened Common

  /** Traffic tiers "low", "medium", "medium-high", "high". */
  datatype Level = Low | Medium | MediumHigh | High

  /** The ordinal weights 1..4 that `combineTrafficIndicators` assigns. */
  function Ordinal(t: Level): (n: int)
    ensures 1 <= n <= 4
  {
    match t
    case Low => 1
    case Medium => 2
    case MediumHigh => 3
    case High => 4
  }

  /** `getTrafficStatus`: ≥ 75 high, ≥ 50 medium-high, ≥ 25 medium, else low. */
  function TrafficStatus(capacityPercentage: real): Level {
    if capacityPercentage >= 75.0 then High
    else if capacityPercentage >= 50.0 then MediumHigh
    else if capacityPercentage >= 25.0 then Medium
    else Low
  }

  /** `(users / maxCapacity) * 100`, the occupancy percentage of a gym or slot. */
  function CapacityPercentage(users: int, maxCapacity: int): real
    requires maxCapacity > 0
  {
    users as real / maxCapacity as real * 100.0
  }

  /** The tier of an occupancy, decided on the integers by cross-multiplying. */
  function TrafficByCount(users: int, maxCapacity: int): Level {
    if 4 * users >= 3 * maxCapacity then High
    else if 2 * users >= maxCapacity then MediumHigh
    else if 4 * users >= maxCapacity then Medium
    else Low
  }

  lemma TrafficStatusMonotone(x: real, y: real)
    requires x <= y
    ensures Ordinal(TrafficStatus(x)) <= Ordinal(TrafficStatus(y))
  {
  }

  /** The documented boundary values land on the higher tier. */
  lemma TrafficStatusBoundaries()
    ensures TrafficStatus(75.0) == High && TrafficStatus(50.0) == MediumHigh
    ensures TrafficStatus(25.0) == Medium && TrafficStatus(24.99) == Low
  {
  }

  /** The tier of an occupancy percentage is the integer cross-multiplied tier:
      for example a gym is "high" exactly when 4·users ≥ 3·maxCapacity. */
  lemma TrafficOfOccupancy(users: int, maxCapacity: int)
    requires maxCapacity > 0
    ensures TrafficStatus(CapacityPercentage(users, maxCapacity)) == TrafficByCount(users, maxCapacity)
  {
    var p := CapacityPercentage(users, maxCapacity);
    assert p * maxCapacity as real == 100.0 * users as real;
    PercentAtLeast(p, maxCapacity, users, 75.0, 4, 3);
    PercentAtLeast(p, maxCapacity, users, 50.0, 2, 1);
    PercentAtLeast(p, maxCapacity, users, 25.0, 4, 1);
  }

  /** p ≥ t exactly when num·users ≥ den·capacity, where t = 100·den/num. */
  lemma PercentAtLeast(p: real, capacity: int, users: int, t: real, num: int, den: int)
    requires capacity > 0 && p * capacity as real == 100.0 * users as real
    requires num > 0 && t * num as real == 100.0 * den as real
    ensures p >= t <==> num * users >= den * capacity
  {
    var c := capacity as real;
    assert (num * users) as real == num as real * users as real;
    assert (den * capacity) as real == den as real * c;
    if p >= t {
      assert p * c >= t * c;
      assert num as real * (p * c) >= num as real * (t * c);
    } else {
      assert p * c < t * c;
      assert num as real * (p * c) < num as real * (t * c);
    }
  }

  /** `predictTrafficForDay`: weekends high, Monday and Friday medium-high,
      Wednesday low, any other value medium. */
  function PredictForDay(dayOfWeek: int): Level {
    if dayOfWeek == 0 || dayOfWeek == 6 then High
    else if dayOfWeek == 1 || dayOfWeek == 5 then MediumHigh
    else if dayOfWeek == 3 then Low
    else Medium
  }

  /** `predictTrafficForTimeOfDay`; its day-of-week argument is unused. */
  function PredictForTimeOfDay(hour: int, dayOfWeek: int): Level {
    if 6 <= hour < 9 then High
    else if 12 <= hour < 14 then MediumHigh
    else if 17 <= hour < 20 then High
    else if hour >= 20 || hour < 6 then Low
    else Medium
  }

  /** The week: Saturday and Sunday high, Monday and Friday medium-high,
      Wednesday low, Tuesday and Thursday medium; no day is busier than the
      weekend or quieter than Wednesday. */
  lemma PredictForDayTable(dayOfWeek: int)
    ensures 0 <= dayOfWeek <= 6 ==>
      && (PredictForDay(dayOfWeek) == High <==> dayOfWeek == 0 || dayOfWeek == 6)
      && (PredictForDay(dayOfWeek) == MediumHigh <==> dayOfWeek == 1 || dayOfWeek == 5)
      && (PredictForDay(dayOfWeek) == Low <==> dayOfWeek == 3)
      && (PredictForDay(dayOfWeek) == Medium <==> dayOfWeek == 2 || dayOfWeek == 4)
    ensures Ordinal(PredictForDay(3)) <= Ordinal(PredictForDay(dayOfWeek)) <= Ordinal(PredictForDay(0))
  {
  }

  lemma PredictForTimeOfDayIgnoresDay(hour: int, d1: int, d2: int)
    ensures PredictForTimeOfDay(hour, d1) == PredictForTimeOfDay(hour, d2)
  {
  }

  /** The hour table: high 6–8 and 17–19, medium-high 12–13, low from 20 and
      before 6, medium at 9–11 and 14–16. */
  lemma PredictForTimeOfDayTable(hour: int, day: int)
    ensures PredictForTimeOfDay(hour, day) == High <==> (6 <= hour <= 8 || 17 <= hour <= 19)
    ensures PredictForTimeOfDay(hour, day) == MediumHigh <==> 12 <= hour <= 13
    ensures PredictForTimeOfDay(hour, day) == Low <==> (hour >= 20 || hour < 6)
    ensures PredictForTimeOfDay(hour, day) == Medium <==> (9 <= hour <= 11 || 14 <= hour <= 16)
  {
  }

  /** `combineTrafficIndicators`: 0.7·actual + 0.3·predicted against 3.5, 2.5
      and 1.5, computed on the integers as 7·actual + 3·predicted against 35,
      25 and 15. */
  function Combine(actual: Level, predicted: Level): Level {
    var v := 7 * Ordinal(actual) + 3 * Ordinal(predicted);
    if v >= 35 then High
    else if v >= 25 then MediumHigh
    else if v >= 15 then Medium
    else Low
  }

  /** The weighted sum and thresholds of the source, in exact arithmetic. */
  function CombineWeighted(actual: Level, predicted: Level): Level {
    var v := 0.7 * Ordinal(actual) as real + 0.3 * Ordinal(predicted) as real;
    if v >= 3.5 then High
    else if v >= 2.5 then MediumHigh
    else if v >= 1.5 then Medium
    else Low
  }

  lemma CombineIsWeighted(actual: Level, predicted: Level)
    ensures Combine(actual, predicted) == CombineWeighted(actual, predicted)
  {
  }

  lemma CombineIdempotent(t: Level)
    ensures Combine(t, t) == t
  {
  }

  lemma CombineMonotone(a1: Level, a2: Level, p1: Level, p2: Level)
    requires Ordinal(a1) <= Ordinal(a2) && Ordinal(p1) <= Ordinal(p2)
    ensures Ordinal(Combine(a1, p1)) <= Ordinal(Combine(a2, p2))
  {
  }

  /** The combined tier lies between its two inputs and never more than one
      tier away from the observed one. */
  lemma CombineBetween(actual: Level, predicted: Level)
    ensures Ordinal(Combine(actual, predicted)) <= Ordinal(actual) || Ordinal(Combine(actual, predicted)) <= Ordinal(predicted)
    ensures Ordinal(Combine(actual, predicted)) >= Ordinal(actual) || Ordinal(Combine(actual, predicted)) >= Ordinal(predicted)
    ensures -1 <= Ordinal(Combine(actual, predicted)) - Ordinal(actual) <= 1
  {
  }

  /** Machine availability tiers "high", "medium", "limited", "low". */
  datatype Availability = Plentiful | Moderate | Limited | Scarce

  function AvailabilityRank(a: Availability): int {
    match a
    case Scarce => 1
    case Limited => 2
    case Moderate => 3
    case Plentiful => 4
  }

  /** `getAvailabilityStatus`: ≥ 75 high, ≥ 50 medium, ≥ 25 limited, else low. */
  function AvailabilityStatus(percentageAvailable: real): Availability {
    if percentageAvailable >= 75.0 then Plentiful
    else if percentageAvailable >= 50.0 then Moderate
    else if percentageAvailable >= 25.0 then Limited
    else Scarce
  }

  lemma AvailabilityStatusMonotone(x: real, y: real)
    requires x <= y
    ensures AvailabilityRank(AvailabilityStatus(x)) <= AvailabilityRank(AvailabilityStatus(y))
  {
  }

  /** Equipment popularity "very popular", "popular", "average", "less used". */
  datatype Popularity = VeryPopular | Popular | Average | LessUsed

  function PopularityRank(p: Popularity): int {
    match p
    case LessUsed => 1
    case Average => 2
    case Popular => 3
    case VeryPopular => 4
  }

  /** `getEquipmentPopularity`: ≥ 1000, ≥ 500, ≥ 100 uses, else less used. */
  function EquipmentPopularity(usageCount: int): Popularity {
    if usageCount >= 1000 then VeryPopular
    else if usageCount >= 500 then Popular
    else if usageCount >= 100 then Average
    else LessUsed
  }

  lemma EquipmentPopularityMonotone(x: int, y: int)
    requires x <= y
    ensures PopularityRank(EquipmentPopularity(x)) <= PopularityRank(EquipmentPopularity(y))
  {
  }

  /** Equipment categories of `categorizeEquipment`. */
  datatype Category = Strength | Cardio | Back | Legs | Arms | Other

  /** `categorizeEquipment`: the first rule whose keyword occurs in the
      lower-cased name decides. */
  function Categorize(name: string): Category {
    CategoryOf(ToLower(name))
  }

  /** The rules of `categorizeEquipment`, applied to a lower-cased name. */
  function CategoryOf(n: string): Category {
    if Contains(n, "bench") || Contains(n, "press") then Strength
    else if Contains(n, "treadmill") || Contains(n, "bike") || Contains(n, "elliptical") then Cardio
    else if Contains(n, "row") || Contains(n, "pull") then Back
    else if Contains(n, "leg") || Contains(n, "squat") || Contains(n, "extension") then Legs
    else if Contains(n, "curl") || Contains(n, "bicep") then Arms
    else Other
  }

  /** The classification ignores the case of the name. */
  lemma CategorizeIgnoresCase(name: string)
    ensures Categorize(ToLower(name)) == Categorize(name)
  {
    ToLowerIdempotent(name);
  }

  /** "Leg Press" also mentions "leg": the earlier strength rule wins. */
  lemma CategorizeLegPress()
    ensures Categorize("Leg Press") == Strength
  {
    var a := ToLower("Leg Press");
    assert |a| == 9 && a[4] == 'p' && a[5] == 'r' && a[6] == 'e' && a[7] == 's' && a[8] == 's';
    CharsAt(a, "press", 4);
    OccursContains(a, "press", 4);
    assert CategoryOf(a) == Strength;
  }

  /** A name with a strength keyword is strength equipment whatever else it
      mentions ("Leg Press" also mentions "leg"). */
  lemma StrengthRuleFirst(name: string)
    requires Contains(ToLower(name), "bench") || Contains(ToLower(name), "press")
    ensures Categorize(name) == Strength
  {
  }

  /** The cardio rule is tried before the back rule: "Rowing Bike" mentions
      "row" but is cardio. */
  lemma CardioBeforeBack(name: string)
    requires !Contains(ToLower(name), "bench") && !Contains(ToLower(name), "press")
    requires Contains(ToLower(name), "bike") && Contains(ToLower(name), "row")
    ensures Categorize(name) == Cardio
  {
  }

  /** A name mentioning none of the keywords is "other". */
  lemma CategorizeOther(name: string)
    requires NoKeyword(ToLower(name))
    ensures Categorize(name) == Other
  {
  }

  /** The lower-cased name mentions none of the keywords of the rules. */
  predicate NoKeyword(n: string) {
    && !Contains(n, "bench")
    && !Contains(n, "press")
    && !Contains(n, "treadmill")
    && !Contains(n, "bike")
    && !Contains(n, "elliptical")
    && !Contains(n, "row")
    && !Contains(n, "pull")
    && !Contains(n, "leg")
    && !Contains(n, "squat")
    && !Contains(n, "extension")
    && !Contains(n, "curl")
    && !Contains(n, "bicep")
  }

  /** Visual indicators of a tier (the emoji of `getTrafficIndicator`). */
  datatype Indicator = Red | OrangeDot | Yellow | Green

  function TrafficIndicator(t: Level): (i: Indicator) {
    match t
    case High => Red
    case MediumHigh => OrangeDot
    case Medium => Yellow
    case Low => Green
  }

  /** Different tiers show different indicators. */
  lemma TrafficIndicatorInjective(s: Level, t: Level)
    requires TrafficIndicator(s) == TrafficIndicator(t)
    ensures s == t
  {
  }
}
