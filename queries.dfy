/** The numbered queries of the statistics layer over the property list: value filter,
    per-agent revenue, prices and averages by sale year, the year-over-year change, and
    days on market overall and per agency. Every `reduce` that appends with
    `[...pre, x]` is a left fold here, and is proved equal to `Selected` of the values it
    appends and the records it keeps. */
module Queries {
  import opened Wrappers
  import opened Selection
  import opened Numbers
  import opened Records

  /** The prices of the records, in input order. */
  function Prices(properties: seq<Property>): seq<real>
  {
    seq(|properties|, i requires 0 <= i < |properties| => properties[i].price)
  }

  // ---------------------------------------------------------------- 1. value filter

  function AboveValueMask(properties: seq<Property>, value: real): seq<bool>
  {
    seq(|properties|, i requires 0 <= i < |properties| => properties[i].price > value)
  }

  /** `filterByValue`: `properties.filter((item) => item.price > value)`. */
  function FilterByValue(properties: seq<Property>, value: real): (r: seq<Property>)
    ensures |r| <= |properties|
    ensures forall p :: p in r ==> p in properties && p.price > value
  {
    if properties == [] then []
    else
      var n := |properties| - 1;
      var pre := FilterByValue(properties[..n], value);
      assert forall p :: p in properties[..n] ==> p in properties;
      if properties[n].price > value then pre + [properties[n]] else pre
  }

  /** The filter keeps exactly the records priced above the threshold, in input order. */
  lemma {:induction false} FilterByValueSelects(properties: seq<Property>, value: real)
    ensures FilterByValue(properties, value) == Selected(properties, AboveValueMask(properties, value))
  {
    if properties != [] {
      var n := |properties| - 1;
      var init := properties[..n];
      FilterByValueSelects(init, value);
      assert properties == init + [properties[n]];
      assert AboveValueMask(properties, value) == AboveValueMask(init, value) + [properties[n].price > value];
      SelectedSnoc(init, AboveValueMask(init, value), properties[n], properties[n].price > value);
    }
  }

  /** Worked example: of a 650000 and a 500000 listing, only the first is above 600000. */
  lemma FilterByValueExample(a: Property, b: Property)
    requires a.price == 650000.0 && b.price == 500000.0
    ensures FilterByValue([a, b], 600000.0) == [a]
  {
    assert [a, b][..1] == [a];
    assert [a][..0] == [];
  }

  // ---------------------------------------------------------------- 2. value sold by agent

  /** `cur.agent && cur.agent === agentId`: an agent id of 0 is falsy and never matches. */
  predicate SoldByAgent(p: Property, agentId: int)
  {
    IdTruthy(p.agent) && p.agent.value == agentId
  }

  function SoldByAgentMask(properties: seq<Property>, agentId: int): seq<bool>
  {
    seq(|properties|, i requires 0 <= i < |properties| => SoldByAgent(properties[i], agentId))
  }

  /** `getValueSoldByAgent`: the fold that adds up the price of every record of the agent. */
  function GetValueSoldByAgent(properties: seq<Property>, agentId: int): (total: real)
    ensures (forall i :: 0 <= i < |properties| ==> !SoldByAgent(properties[i], agentId)) ==> total == 0.0
    ensures agentId == 0 ==> total == 0.0
  {
    if properties == [] then 0.0
    else
      var n := |properties| - 1;
      var pre := GetValueSoldByAgent(properties[..n], agentId);
      if SoldByAgent(properties[n], agentId) then pre + properties[n].price else pre
  }

  /** The total is the sum of the prices of exactly the agent's records. */
  lemma {:induction false} ValueSoldByAgentIsSum(properties: seq<Property>, agentId: int)
    ensures GetValueSoldByAgent(properties, agentId)
      == Sum(Selected(Prices(properties), SoldByAgentMask(properties, agentId)))
  {
    if properties != [] {
      var n := |properties| - 1;
      var init := properties[..n];
      var hit := SoldByAgent(properties[n], agentId);
      ValueSoldByAgentIsSum(init, agentId);
      assert Prices(properties) == Prices(init) + [properties[n].price];
      assert SoldByAgentMask(properties, agentId) == SoldByAgentMask(init, agentId) + [hit];
      SelectedSnoc(Prices(init), SoldByAgentMask(init, agentId), properties[n].price, hit);
      var sel := Selected(Prices(init), SoldByAgentMask(init, agentId));
      if hit {
        assert (sel + [properties[n].price])[..|sel|] == sel;
      } else {
        assert sel + [] == sel;
      }
    }
  }

  /** Splitting the property list splits the total. */
  lemma {:induction false} ValueSoldByAgentAppend(a: seq<Property>, b: seq<Property>, agentId: int)
    ensures GetValueSoldByAgent(a + b, agentId) == GetValueSoldByAgent(a, agentId) + GetValueSoldByAgent(b, agentId)
  {
    if b == [] {
      assert a + b == a;
    } else {
      var n := |b| - 1;
      assert (a + b)[..|a + b| - 1] == a + b[..n];
      assert (a + b)[|a + b| - 1] == b[n];
      ValueSoldByAgentAppend(a, b[..n], agentId);
    }
  }

  // ---------------------------------------------------------------- 3. prices and median by year

  function SoldInYearMask(properties: seq<Property>, year: int): seq<bool>
  {
    seq(|properties|, i requires 0 <= i < |properties| => SoldInYear(properties[i], year))
  }

  /** `getPropertyPricesSoldInYear`: the price of every record sold in `year`. */
  function GetPropertyPricesSoldInYear(properties: seq<Property>, year: int): (prices: seq<real>)
    ensures |prices| <= |properties|
  {
    if properties == [] then []
    else
      var n := |properties| - 1;
      var pre := GetPropertyPricesSoldInYear(properties[..n], year);
      if SoldInYear(properties[n], year) then pre + [properties[n].price] else pre
  }

  /** The selection lists the prices of exactly the records sold in `year`, in input order. */
  lemma {:induction false} PricesSoldInYearSelects(properties: seq<Property>, year: int)
    ensures GetPropertyPricesSoldInYear(properties, year)
      == Selected(Prices(properties), SoldInYearMask(properties, year))
  {
    if properties != [] {
      var n := |properties| - 1;
      var init := properties[..n];
      PricesSoldInYearSelects(init, year);
      assert Prices(properties) == Prices(init) + [properties[n].price];
      assert SoldInYearMask(properties, year) == SoldInYearMask(init, year) + [SoldInYear(properties[n], year)];
      SelectedSnoc(Prices(init), SoldInYearMask(init, year), properties[n].price, SoldInYear(properties[n], year));
    }
  }

  /** No price is selected exactly when no record was sold in `year`. */
  lemma PricesSoldInYearEmpty(properties: seq<Property>, year: int)
    ensures GetPropertyPricesSoldInYear(properties, year) == []
      <==> forall i :: 0 <= i < |properties| ==> !SoldInYear(properties[i], year)
  {
    PricesSoldInYearSelects(properties, year);
    var mask := SoldInYearMask(properties, year);
    SelectedEmpty(Prices(properties), mask);
    assert forall i :: 0 <= i < |properties| ==> mask[i] == SoldInYear(properties[i], year);
  }

  /** Every selected price is the price of a record sold in `year`. */
  lemma PricesSoldInYearFrom(properties: seq<Property>, year: int)
    ensures forall x :: x in GetPropertyPricesSoldInYear(properties, year) ==>
      exists i :: 0 <= i < |properties| && SoldInYear(properties[i], year) && properties[i].price == x
  {
    PricesSoldInYearSelects(properties, year);
    PositionsSpec(SoldInYearMask(properties, year));
    var idx := Positions(SoldInYearMask(properties, year));
    forall x | x in GetPropertyPricesSoldInYear(properties, year)
      ensures exists i :: 0 <= i < |properties| && SoldInYear(properties[i], year) && properties[i].price == x
    {
      var k :| 0 <= k < |idx| && GetPropertyPricesSoldInYear(properties, year)[k] == x;
      var i := idx[k];
      assert SoldInYear(properties[i], year) && properties[i].price == x;
    }
  }

  /** Query 3: the median price of the records sold in `year`; `None` when there are none. */
  function MedianPriceSoldInYear(properties: seq<Property>, year: int): (median: Option<real>)
    ensures median.None? <==> forall i :: 0 <= i < |properties| ==> !SoldInYear(properties[i], year)
  {
    PricesSoldInYearEmpty(properties, year);
    CalculateMedian(GetPropertyPricesSoldInYear(properties, year))
  }

  // ---------------------------------------------------------------- 4. average by year, change

  /** `calculateAveragePriceByYear`: the mean of the prices sold in `year`. */
  function CalculateAveragePriceByYear(properties: seq<Property>, year: int): (avg: Option<real>)
    ensures avg.None? <==> forall i :: 0 <= i < |properties| ==> !SoldInYear(properties[i], year)
  {
    PricesSoldInYearEmpty(properties, year);
    CalculateAverage(GetPropertyPricesSoldInYear(properties, year))
  }

  /** The average price of a year lies within any price range that holds of that year's
      sales. */
  lemma AveragePriceByYearBounds(properties: seq<Property>, year: int, lo: real, hi: real)
    requires forall i :: 0 <= i < |properties| && SoldInYear(properties[i], year) ==>
      lo <= properties[i].price <= hi
    ensures CalculateAveragePriceByYear(properties, year).Some? ==>
      lo <= CalculateAveragePriceByYear(properties, year).value <= hi
  {
    var prices := GetPropertyPricesSoldInYear(properties, year);
    if prices != [] {
      PricesSoldInYearFrom(properties, year);
      AverageBounds(prices);
      assert lo <= Min(prices) && Max(prices) <= hi;
    }
  }

  /** Query 4: `((avg(toYear) - avg(fromYear)) / avg(fromYear)) * 100`; `None` where the
      source computes NaN or Infinity (an undefined or zero base average, or an undefined
      new average). */
  function PercentageChange(properties: seq<Property>, fromYear: int, toYear: int): (r: Option<real>)
    ensures r.Some? <==>
      CalculateAveragePriceByYear(properties, fromYear).Some? &&
      CalculateAveragePriceByYear(properties, toYear).Some? &&
      CalculateAveragePriceByYear(properties, fromYear).value != 0.0
    ensures r.Some? ==>
      var before := CalculateAveragePriceByYear(properties, fromYear).value;
      before + before * r.value / 100.0 == CalculateAveragePriceByYear(properties, toYear).value
  {
    var before := CalculateAveragePriceByYear(properties, fromYear);
    var after := CalculateAveragePriceByYear(properties, toYear);
    if before.Some? && after.Some? && before.value != 0.0 then
      Some((after.value - before.value) / before.value * 100.0)
    else None
  }

  // ---------------------------------------------------------------- 5. days on market

  /** `cur.listDate && cur.soldDate`. */
  predicate ListedAndSold(p: Property)
  {
    TextTruthy(p.listDate) && TextTruthy(p.soldDate)
  }

  /** The days a listed-and-sold record was on the market; `day` is the date parser,
      giving the day number of an ISO date. */
  function DaysOnMarket(p: Property, day: string -> int): nat
    requires ListedAndSold(p)
  {
    CalculateOnMarketDays(day(p.listDate.value), day(p.soldDate.value))
  }

  /** The value the day folds append for a record (0 for the records they skip). */
  function DayValue(p: Property, day: string -> int): nat
  {
    if ListedAndSold(p) then DaysOnMarket(p, day) else 0
  }

  function DaysValues(properties: seq<Property>, day: string -> int): seq<nat>
  {
    seq(|properties|, i requires 0 <= i < |properties| => DayValue(properties[i], day))
  }

  function ListedAndSoldMask(properties: seq<Property>): seq<bool>
  {
    seq(|properties|, i requires 0 <= i < |properties| => ListedAndSold(properties[i]))
  }

  /** `getAllDaysOnMarket`: one day count per record with both dates. */
  function GetAllDaysOnMarket(properties: seq<Property>, day: string -> int): (days: seq<nat>)
    ensures |days| <= |properties|
  {
    if properties == [] then []
    else
      var n := |properties| - 1;
      var pre := GetAllDaysOnMarket(properties[..n], day);
      if ListedAndSold(properties[n]) then pre + [DaysOnMarket(properties[n], day)] else pre
  }

  /** The day counts are those of exactly the records with both dates, in input order;
      the others are skipped, not counted as 0. */
  lemma {:induction false} AllDaysOnMarketSelects(properties: seq<Property>, day: string -> int)
    ensures GetAllDaysOnMarket(properties, day)
      == Selected(DaysValues(properties, day), ListedAndSoldMask(properties))
  {
    if properties != [] {
      var n := |properties| - 1;
      var init := properties[..n];
      var p := properties[n];
      AllDaysOnMarketSelects(init, day);
      var v := DayValue(p, day);
      assert DaysValues(properties, day) == DaysValues(init, day) + [v];
      assert ListedAndSoldMask(properties) == ListedAndSoldMask(init) + [ListedAndSold(p)];
      SelectedSnoc(DaysValues(init, day), ListedAndSoldMask(init), v, ListedAndSold(p));
    }
  }

  /** No day count is produced exactly when no record has both dates. */
  lemma AllDaysOnMarketEmpty(properties: seq<Property>, day: string -> int)
    ensures GetAllDaysOnMarket(properties, day) == []
      <==> forall i :: 0 <= i < |properties| ==> !ListedAndSold(properties[i])
  {
    AllDaysOnMarketSelects(properties, day);
    var mask := ListedAndSoldMask(properties);
    SelectedEmpty(DaysValues(properties, day), mask);
    assert forall i :: 0 <= i < |properties| ==> mask[i] == ListedAndSold(properties[i]);
  }

  /** Query 5: the average number of days on market; `None` when no record has both
      dates. */
  function AverageDaysOnMarket(properties: seq<Property>, day: string -> int): (avg: Option<real>)
    ensures avg.None? <==> forall i :: 0 <= i < |properties| ==> !ListedAndSold(properties[i])
    ensures avg.Some? ==> avg.value >= 0.0
  {
    var days := GetAllDaysOnMarket(properties, day);
    AllDaysOnMarketEmpty(properties, day);
    var reals := ToReals(days);
    if days != [] then
      assert reals != [];
      AverageZero(reals);
      CalculateAverage(reals)
    else
      CalculateAverage(reals)
  }

  // ---------------------------------------------------------------- 6. days on market by agency

  /** `cur.listDate && cur.soldDate && cur.agent === agencyId`: strict equality, with no
      truthiness test on the agent. */
  predicate ListedAndSoldBy(p: Property, agencyId: int)
  {
    ListedAndSold(p) && p.agent == Some(agencyId)
  }

  function ListedAndSoldByMask(properties: seq<Property>, agencyId: int): seq<bool>
  {
    seq(|properties|, i requires 0 <= i < |properties| => ListedAndSoldBy(properties[i], agencyId))
  }

  /** `getDaysOnMarketByAgency`: one day count per record of the agency with both dates. */
  function GetDaysOnMarketByAgency(properties: seq<Property>, agencyId: int, day: string -> int): (days: seq<nat>)
    ensures |days| <= |properties|
  {
    if properties == [] then []
    else
      var n := |properties| - 1;
      var pre := GetDaysOnMarketByAgency(properties[..n], agencyId, day);
      if ListedAndSoldBy(properties[n], agencyId) then pre + [DaysOnMarket(properties[n], day)] else pre
  }

  /** The agency's day counts are those of exactly its records with both dates, in input
      order, with the same values `getAllDaysOnMarket` gives them. */
  lemma {:induction false} DaysOnMarketByAgencySelects(properties: seq<Property>, agencyId: int, day: string -> int)
    ensures GetDaysOnMarketByAgency(properties, agencyId, day)
      == Selected(DaysValues(properties, day), ListedAndSoldByMask(properties, agencyId))
  {
    if properties != [] {
      var n := |properties| - 1;
      var init := properties[..n];
      var p := properties[n];
      DaysOnMarketByAgencySelects(init, agencyId, day);
      var v := DayValue(p, day);
      assert DaysValues(properties, day) == DaysValues(init, day) + [v];
      assert ListedAndSoldByMask(properties, agencyId) == ListedAndSoldByMask(init, agencyId) + [ListedAndSoldBy(p, agencyId)];
      SelectedSnoc(DaysValues(init, day), ListedAndSoldByMask(init, agencyId), v, ListedAndSoldBy(p, agencyId));
    }
  }

  /** An agency never has more day counts than the whole list. */
  lemma DaysOnMarketByAgencyNoLonger(properties: seq<Property>, agencyId: int, day: string -> int)
    ensures |GetDaysOnMarketByAgency(properties, agencyId, day)| <= |GetAllDaysOnMarket(properties, day)|
  {
    DaysOnMarketByAgencySelects(properties, agencyId, day);
    AllDaysOnMarketSelects(properties, day);
    PositionsMonotone(ListedAndSoldByMask(properties, agencyId), ListedAndSoldMask(properties));
  }
}
