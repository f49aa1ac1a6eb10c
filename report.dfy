/** Query 6, the per-agency report: the `agencies.reduce` that keeps every agency with
    a truthy `id` and `agency` and adds its average days on market, or 'n/a'. */
module Report {
  import opened Wrappers
  import opened Selection
  import opened Numbers
  import opened Records
  import opened Queries

  /** The value of `averageDaysOnMarket`: a number, or the string 'n/a'. */
  datatype AverageDays = Days(value: real) | NotApplicable

  /** `{ ...cur, averageDaysOnMarket }`: the agency with all its fields, plus the average. */
  datatype ReportEntry = ReportEntry(record: Agency, averageDaysOnMarket: AverageDays)

  /** `cur.id && cur.agency`. */
  predicate Reportable(a: Agency)
  {
    IdTruthy(a.id) && TextTruthy(a.agency)
  }

  /** `avg || 'n/a'`: an undefined (NaN) average and an average of exactly 0 are both
      falsy and become 'n/a'. */
  function OrNotApplicable(avg: Option<real>): AverageDays
  {
    if avg.Some? && avg.value != 0.0 then Days(avg.value) else NotApplicable
  }

  /** The mean of the agency's days on market, as `calculateAverage` computes it. */
  function AgencyAverageDays(properties: seq<Property>, agencyId: int, day: string -> int): Option<real>
  {
    CalculateAverage(ToReals(GetDaysOnMarketByAgency(properties, agencyId, day)))
  }

  /** The report entry of one agency with a truthy id and name. */
  function AgencyEntry(a: Agency, properties: seq<Property>, day: string -> int): ReportEntry
    requires Reportable(a)
  {
    ReportEntry(a, OrNotApplicable(AgencyAverageDays(properties, a.id.value, day)))
  }

  /** The per-agency report fold. `day` is the date parser. */
  function AgencyReport(agencies: seq<Agency>, properties: seq<Property>, day: string -> int): (report: seq<ReportEntry>)
    ensures |report| <= |agencies|
    ensures forall e :: e in report ==>
      e.record in agencies && Reportable(e.record) && e == AgencyEntry(e.record, properties, day)
  {
    if agencies == [] then []
    else
      var n := |agencies| - 1;
      var pre := AgencyReport(agencies[..n], properties, day);
      assert forall a :: a in agencies[..n] ==> a in agencies;
      if Reportable(agencies[n]) then pre + [AgencyEntry(agencies[n], properties, day)] else pre
  }

  /** The agencies a report is about, in report order. */
  function ReportedAgencies(report: seq<ReportEntry>): seq<Agency>
  {
    seq(|report|, k requires 0 <= k < |report| => report[k].record)
  }

  function ReportableMask(agencies: seq<Agency>): seq<bool>
  {
    seq(|agencies|, i requires 0 <= i < |agencies| => Reportable(agencies[i]))
  }

  /** The report is about exactly the agencies with a truthy id and name, each kept whole
      and in input order. */
  lemma {:induction false} ReportKeepsAgencies(agencies: seq<Agency>, properties: seq<Property>, day: string -> int)
    ensures ReportedAgencies(AgencyReport(agencies, properties, day)) == Selected(agencies, ReportableMask(agencies))
  {
    if agencies != [] {
      var n := |agencies| - 1;
      var init := agencies[..n];
      var a := agencies[n];
      ReportKeepsAgencies(init, properties, day);
      assert agencies == init + [a];
      assert ReportableMask(agencies) == ReportableMask(init) + [Reportable(a)];
      SelectedSnoc(init, ReportableMask(init), a, Reportable(a));
      var pre := AgencyReport(init, properties, day);
      if Reportable(a) {
        assert ReportedAgencies(pre + [AgencyEntry(a, properties, day)]) == ReportedAgencies(pre) + [a];
      }
    }
  }

  /** The agency's day counts are the day counts of its listed-and-sold records. */
  lemma AgencyDaysFrom(properties: seq<Property>, agencyId: int, day: string -> int)
    ensures forall d :: d in GetDaysOnMarketByAgency(properties, agencyId, day) ==>
      exists i :: 0 <= i < |properties| && ListedAndSoldBy(properties[i], agencyId) && d == DaysOnMarket(properties[i], day)
    ensures forall i :: 0 <= i < |properties| && ListedAndSoldBy(properties[i], agencyId) ==>
      DaysOnMarket(properties[i], day) in GetDaysOnMarketByAgency(properties, agencyId, day)
  {
    var days := GetDaysOnMarketByAgency(properties, agencyId, day);
    var mask := ListedAndSoldByMask(properties, agencyId);
    var idx := Positions(mask);
    PositionsSpec(mask);
    DaysOnMarketByAgencySelects(properties, agencyId, day);
    var vals := DaysValues(properties, day);
    forall d | d in days
      ensures exists i :: 0 <= i < |properties| && ListedAndSoldBy(properties[i], agencyId) && d == DaysOnMarket(properties[i], day)
    {
      var k :| 0 <= k < |days| && days[k] == d;
      var i := idx[k];
      assert mask[i] && ListedAndSoldBy(properties[i], agencyId);
      assert d == vals[i] == DayValue(properties[i], day) == DaysOnMarket(properties[i], day);
    }
    forall i | 0 <= i < |properties| && ListedAndSoldBy(properties[i], agencyId)
      ensures DaysOnMarket(properties[i], day) in days
    {
      assert mask[i];
      var k :| 0 <= k < |idx| && idx[k] == i;
      assert days[k] == vals[i] == DayValue(properties[i], day) == DaysOnMarket(properties[i], day);
    }
  }

  /** An agency is reported as 'n/a' exactly when every one of its listed-and-sold records
      (possibly none) was on the market for 0 days; otherwise its average is positive. */
  lemma NotApplicableExactly(a: Agency, properties: seq<Property>, day: string -> int)
    requires Reportable(a)
    ensures AgencyEntry(a, properties, day).averageDaysOnMarket == NotApplicable <==>
      forall i :: 0 <= i < |properties| && ListedAndSoldBy(properties[i], a.id.value) ==>
        DaysOnMarket(properties[i], day) == 0
    ensures AgencyEntry(a, properties, day).averageDaysOnMarket.Days? ==>
      AgencyEntry(a, properties, day).averageDaysOnMarket.value > 0.0
  {
    var id := a.id.value;
    var days := GetDaysOnMarketByAgency(properties, id, day);
    var reals := ToReals(days);
    AgencyDaysFrom(properties, id, day);
    if days != [] {
      assert reals != [];
      AverageZero(reals);
      var allZero := forall i :: 0 <= i < |properties| && ListedAndSoldBy(properties[i], id) ==>
        DaysOnMarket(properties[i], day) == 0;
      if allZero {
        forall x | x in reals ensures x == 0.0 {
          var k :| 0 <= k < |reals| && reals[k] == x;
          assert days[k] in days;
        }
      } else {
        var i :| 0 <= i < |properties| && ListedAndSoldBy(properties[i], id) && DaysOnMarket(properties[i], day) != 0;
        var k :| 0 <= k < |days| && days[k] == DaysOnMarket(properties[i], day);
        assert reals[k] in reals && reals[k] != 0.0;
      }
    }
  }

  /** Worked example: one agency, one of its listings on the market for ten days. */
  lemma ReportExample(day: string -> int, price: real)
    requires day("2020-01-01") + 10 == day("2020-01-11")
    ensures var a := Agency(Some(1), Some("A"));
      AgencyReport([a], [Property(price, Some(1), Some("2020-01-01"), Some("2020-01-11"))], day)
        == [ReportEntry(a, Days(10.0))]
  {
    var a := Agency(Some(1), Some("A"));
    var ps := [Property(price, Some(1), Some("2020-01-01"), Some("2020-01-11"))];
    assert ps[..0] == [];
    assert GetDaysOnMarketByAgency(ps, 1, day) == [10];
    assert ToReals([10]) == [10.0];
    assert Sum([10.0]) == 10.0 by {
      assert [10.0][..0] == [];
    }
    assert [a][..0] == [];
  }

  /** Worked example: an agency without listings is reported as 'n/a', its fields kept. */
  lemma ReportNotApplicableExample(a: Agency, properties: seq<Property>, day: string -> int)
    requires Reportable(a)
    requires forall p :: p in properties ==> p.agent != a.id
    ensures AgencyReport([a], properties, day) == [ReportEntry(a, NotApplicable)]
  {
    NotApplicableExactly(a, properties, day);
    assert [a][..0] == [];
  }
}
