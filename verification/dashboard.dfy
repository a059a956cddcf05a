/** The dashboard routes: `/overview` (recent companies, summary counts, top
    countries, additions in the last week) and `/charts` (status, country and
    yield-range distributions). */
module Dashboard {
  import opened Common
  import opened Sorting
  import opened Grouping
  import opened Schema
  import opened Aggregates

  const RecentLimit := 5
  const TopCountriesLimit := 5
  const SecondsPerDay := 86400
  const WeekSeconds := 7 * SecondsPerDay

  // ---------------------------------------------------------------------------
  // Recent companies

  /** One row of `recent_companies`. */
  datatype Recent = Recent(
    id: int,
    name: string,
    ticker: Option<string>,
    countryName: Option<string>,
    yieldHundredths: Option<int>,
    companyStatus: Option<string>,
    dateAdded: Option<int>)  // DATE(nc.created): days since the epoch

  /** DATE(): the day a timestamp falls on (floor division; the divisor is positive). */
  function DayOf(created: Option<int>): (d: Option<int>)
    ensures d.Some? <==> created.Some?
    ensures d.Some? ==> d.value * SecondsPerDay <= created.value < (d.value + 1) * SecondsPerDay
  {
    if created.None? then None else Some(created.value / SecondsPerDay)
  }

  function RecentRow(c: Company, statuses: seq<StatusRow>): Recent {
    Recent(c.id, c.name, c.ticker, c.countryName, c.yieldHundredths, StatusName(c, statuses), DayOf(c.created))
  }

  /** The joined rows, one per company, in table order. */
  function RecentRows(cs: seq<Company>, statuses: seq<StatusRow>): (r: seq<Recent>)
    ensures |r| == |cs|
    ensures forall i :: 0 <= i < |cs| ==> r[i] == RecentRow(cs[i], statuses)
  {
    if |cs| == 0 then [] else [RecentRow(cs[0], statuses)] + RecentRows(cs[1..], statuses)
  }

  /** ORDER BY nc.new_company_id DESC. */
  predicate RecentIdDesc(a: Recent, b: Recent) {
    a.id >= b.id
  }

  lemma RecentIdDescPreorder()
    ensures TotalPreorder(RecentIdDesc)
  {
  }

  /** `recent_companies`: the five largest ids, largest first; a company left
      out has an id no larger than any company listed. */
  function RecentCompanies(cs: seq<Company>, statuses: seq<StatusRow>): (r: seq<Recent>)
    ensures |r| == if |cs| < RecentLimit then |cs| else RecentLimit
    ensures SortedBy(RecentIdDesc, r)
    ensures forall i :: 0 <= i < |r| ==> exists k :: 0 <= k < |cs| && r[i] == RecentRow(cs[k], statuses)
    ensures forall k :: 0 <= k < |cs| && RecentRow(cs[k], statuses) !in r ==>
      forall i :: 0 <= i < |r| ==> r[i].id >= cs[k].id
  {
    RecentIdDescPreorder();
    var sorted := Sort(RecentIdDesc, RecentRows(cs, statuses));
    TakeSorted(RecentIdDesc, sorted, RecentLimit);
    RecentKept(cs, statuses, sorted);
    RecentLeftOut(cs, statuses, sorted);
    Take(sorted, RecentLimit)
  }

  /** Every row kept is some company's row. */
  lemma RecentKept(cs: seq<Company>, statuses: seq<StatusRow>, sorted: seq<Recent>)
    requires TotalPreorder(RecentIdDesc)
    requires sorted == Sort(RecentIdDesc, RecentRows(cs, statuses))
    ensures var r := Take(sorted, RecentLimit);
      forall i :: 0 <= i < |r| ==> exists k :: 0 <= k < |cs| && r[i] == RecentRow(cs[k], statuses)
  {
    var rows := RecentRows(cs, statuses);
    SortMembers(RecentIdDesc, rows);
    var r := Take(sorted, RecentLimit);
    forall i | 0 <= i < |r| ensures exists k :: 0 <= k < |cs| && r[i] == RecentRow(cs[k], statuses) {
      assert r[i] in rows;
      var k :| 0 <= k < |rows| && rows[k] == r[i];
      assert r[i] == RecentRow(cs[k], statuses);
    }
  }

  /** A company whose row is cut off has an id no larger than any row kept. */
  lemma RecentLeftOut(cs: seq<Company>, statuses: seq<StatusRow>, sorted: seq<Recent>)
    requires TotalPreorder(RecentIdDesc)
    requires sorted == Sort(RecentIdDesc, RecentRows(cs, statuses))
    ensures var r := Take(sorted, RecentLimit);
      forall k :: 0 <= k < |cs| && RecentRow(cs[k], statuses) !in r ==>
        forall i :: 0 <= i < |r| ==> r[i].id >= cs[k].id
  {
    var rows := RecentRows(cs, statuses);
    SortMembers(RecentIdDesc, rows);
    var r := Take(sorted, RecentLimit);
    assert forall k :: 0 <= k < |cs| ==> RecentRow(cs[k], statuses) in sorted by {
      forall k | 0 <= k < |cs| ensures RecentRow(cs[k], statuses) in sorted {
        assert rows[k] == RecentRow(cs[k], statuses);
      }
    }
    forall k | 0 <= k < |cs| && RecentRow(cs[k], statuses) !in r
      ensures forall i :: 0 <= i < |r| ==> r[i].id >= cs[k].id
    {
      TakeDominates(RecentIdDesc, sorted, RecentLimit, RecentRow(cs[k], statuses));
    }
  }

  /** With unique ids, the recent companies are in strictly descending id order. */
  lemma RecentStrictlyDescending(cs: seq<Company>, statuses: seq<StatusRow>)
    requires UniqueIds(cs)
    ensures var r := RecentCompanies(cs, statuses);
      forall i, j :: 0 <= i < j < |r| ==> r[i].id > r[j].id
  {
    var r := RecentCompanies(cs, statuses);
    forall i, j | 0 <= i < j < |r| ensures r[i].id > r[j].id {
      var a :| 0 <= a < |cs| && r[i] == RecentRow(cs[a], statuses);
      var b :| 0 <= b < |cs| && r[j] == RecentRow(cs[b], statuses);
      RecentRowsDiffer(cs, statuses, i, j);
    }
  }

  /** Two positions of the recent list hold different companies. */
  lemma RecentRowsDiffer(cs: seq<Company>, statuses: seq<StatusRow>, i: int, j: int)
    requires UniqueIds(cs)
    requires 0 <= i < j < |RecentCompanies(cs, statuses)|
    ensures RecentCompanies(cs, statuses)[i].id != RecentCompanies(cs, statuses)[j].id
  {
    var rows := RecentRows(cs, statuses);
    RecentIdDescPreorder();
    var sorted := Sort(RecentIdDesc, rows);
    assert Distinct(rows) by {
      forall a, b | 0 <= a < b < |rows| ensures rows[a] != rows[b] {
        assert rows[a].id == cs[a].id && rows[b].id == cs[b].id;
      }
    }
    DistinctPermutation(rows, sorted);
    var r := RecentCompanies(cs, statuses);
    assert r[i] == sorted[i] && r[j] == sorted[j];
    assert sorted[i] in multiset(rows) && sorted[j] in multiset(rows);
    var a :| 0 <= a < |rows| && rows[a] == sorted[i];
    var b :| 0 <= b < |rows| && rows[b] == sorted[j];
    assert a != b;
  }

  // ---------------------------------------------------------------------------
  // Summary counts and weekly additions

  /** `summary` without the averages: COUNT(*), status-1 count, positive-yield count. */
  datatype Overview = Overview(totalCompanies: nat, activeCompanies: nat, companiesWithYield: nat)

  function OverviewSummary(cs: seq<Company>): (r: Overview)
    ensures r.totalCompanies == |cs|
    ensures r.activeCompanies <= r.totalCompanies && r.companiesWithYield <= r.totalCompanies
    ensures r.activeCompanies == Count(cs).active && r.companiesWithYield == Count(cs).withYield
  {
    var t := Count(cs);
    Overview(t.total, t.active, t.withYield)
  }

  /** `created >= DATE_SUB(NOW(), INTERVAL 7 DAY)`, with the clock as a parameter. */
  predicate AddedSince(c: Company, now: int) {
    c.created.Some? && c.created.value >= now - WeekSeconds
  }

  /** The WHERE test of `weekly_additions` as a row filter. */
  function AddedWithin(now: int): Company -> bool {
    (c: Company) => AddedSince(c, now)
  }

  /** `weekly_additions`: the number of companies created within a week of `now`. */
  function WeeklyAdditions(cs: seq<Company>, now: int): (n: nat)
    ensures n == |Filter(AddedWithin(now), cs)|
    ensures n <= |cs|
    ensures n == 0 <==> forall i :: 0 <= i < |cs| ==> !AddedSince(cs[i], now)
  {
    if |cs| == 0 then 0
    else
      assert forall i :: 1 <= i < |cs| ==> cs[i] == cs[1..][i - 1];
      (if AddedSince(cs[0], now) then 1 else 0) + WeeklyAdditions(cs[1..], now)
  }

  /** A later clock counts no more additions. */
  lemma {:induction false} WeeklyAdditionsAntitone(cs: seq<Company>, earlier: int, later: int)
    requires earlier <= later
    ensures WeeklyAdditions(cs, later) <= WeeklyAdditions(cs, earlier)
  {
    if |cs| > 0 {
      WeeklyAdditionsAntitone(cs[1..], earlier, later);
    }
  }

  /** Every company created at or after `now` minus a week is counted. */
  lemma {:induction false} WeeklyAdditionsAll(cs: seq<Company>, now: int)
    requires forall i :: 0 <= i < |cs| ==> AddedSince(cs[i], now)
    ensures WeeklyAdditions(cs, now) == |cs|
  {
    if |cs| > 0 {
      assert forall i :: 0 <= i < |cs[1..]| ==> cs[1..][i] == cs[i + 1];
      WeeklyAdditionsAll(cs[1..], now);
    }
  }

  // ---------------------------------------------------------------------------
  // Top countries and the country chart

  /** `top_countries`: at most five country labels, largest count first; a
      label left out has no more companies than any label listed. */
  function TopCountries(cs: seq<Company>): (r: seq<Group<string>>)
    ensures |r| == if |CountryCounts(cs)| < TopCountriesLimit then |CountryCounts(cs)| else TopCountriesLimit
    ensures |r| < TopCountriesLimit ==>
      forall k :: 0 <= k < |cs| && cs[k].countryName.Some? ==> HasKey(r, cs[k].countryName.value)
    ensures SortedBy(CountDesc, r) && DistinctKeys(r)
    ensures forall i :: 0 <= i < |r| ==>
      (exists k :: 0 <= k < |cs| && cs[k].countryName == Some(r[i].key))
      && r[i].count == Occurrences(NonNullCountries(cs), r[i].key)
    ensures forall k :: 0 <= k < |cs| && cs[k].countryName.Some? && !HasKey(r, cs[k].countryName.value) ==>
      forall i :: 0 <= i < |r| ==> r[i].count >= Occurrences(NonNullCountries(cs), cs[k].countryName.value)
  {
    var all := CountryCounts(cs);
    var r := Take(all, TopCountriesLimit);
    TakeSorted(CountDesc, all, TopCountriesLimit);
    TopCountriesFound(cs);
    forall k | 0 <= k < |cs| && cs[k].countryName.Some? && !HasKey(r, cs[k].countryName.value)
      ensures forall i :: 0 <= i < |r| ==> r[i].count >= Occurrences(NonNullCountries(cs), cs[k].countryName.value)
    {
      TopCountriesCutOff(cs, cs[k].countryName.value, k);
    }
    assert |r| < TopCountriesLimit ==> r == all;
    r
  }

  /** Every listed country is some company's country, with its count. */
  lemma TopCountriesFound(cs: seq<Company>)
    ensures var r := Take(CountryCounts(cs), TopCountriesLimit);
      forall i :: 0 <= i < |r| ==>
        (exists k :: 0 <= k < |cs| && cs[k].countryName == Some(r[i].key))
        && r[i].count == Occurrences(NonNullCountries(cs), r[i].key)
  {
    var all := CountryCounts(cs);
    var r := Take(all, TopCountriesLimit);
    forall i | 0 <= i < |r|
      ensures exists k :: 0 <= k < |cs| && cs[k].countryName == Some(r[i].key)
    {
      assert r[i] == all[i] && HasKey(all, r[i].key);
    }
  }

  /** A country missing from the top list ranks after every listed one. */
  lemma TopCountriesCutOff(cs: seq<Company>, name: string, k: int)
    requires 0 <= k < |cs| && cs[k].countryName == Some(name)
    requires !HasKey(Take(CountryCounts(cs), TopCountriesLimit), name)
    ensures var r := Take(CountryCounts(cs), TopCountriesLimit);
      forall i :: 0 <= i < |r| ==> r[i].count >= Occurrences(NonNullCountries(cs), name)
  {
    var all := CountryCounts(cs);
    var r := Take(all, TopCountriesLimit);
    assert HasKey(all, name);
    var j :| 0 <= j < |all| && all[j].key == name;
    assert forall i :: 0 <= i < |r| ==> r[i].key != name;
    assert all[j] !in r;
    TakeDominates(CountDesc, all, TopCountriesLimit, all[j]);
  }

  /** `country_distribution`: every non-NULL country label with its count,
      largest first. */
  function CountryDistribution(cs: seq<Company>): (r: seq<Group<string>>)
    ensures SortedBy(CountDesc, r) && DistinctKeys(r)
    ensures forall k :: HasKey(r, k) <==> exists i :: 0 <= i < |cs| && cs[i].countryName == Some(k)
    ensures forall i :: 0 <= i < |r| ==> r[i].count == Occurrences(NonNullCountries(cs), r[i].key)
    ensures Total(r) == |NonNullCountries(cs)|
  {
    var gs := GroupCount(NonNullCountries(cs));
    CountDescPreorder();
    TotalSort(CountDesc, gs);
    CountryCounts(cs)
  }

  // ---------------------------------------------------------------------------
  // Status distribution

  /** The label COALESCE(ncs.status, 'Unknown') gives a group. */
  const UnknownLabel := "Unknown"

  /** The GROUP BY key of each company: its joined status name, NULL included. */
  function StatusKeys(cs: seq<Company>, statuses: seq<StatusRow>): (r: seq<Option<string>>)
    ensures |r| == |cs|
    ensures forall i :: 0 <= i < |cs| ==> r[i] == StatusName(cs[i], statuses)
  {
    if |cs| == 0 then [] else [StatusName(cs[0], statuses)] + StatusKeys(cs[1..], statuses)
  }

  /** Some group carries the label `name`. */
  predicate HasLabel(r: seq<Group<string>>, name: string) {
    exists i :: 0 <= i < |r| && r[i].key == name
  }

  /** Replaces each group's key by its display label. */
  function Labelled(gs: seq<Group<Option<string>>>): (r: seq<Group<string>>)
    ensures |r| == |gs|
    ensures forall i :: 0 <= i < |gs| ==> r[i] == Group(gs[i].key.GetOr(UnknownLabel), gs[i].count)
    ensures Total(r) == Total(gs)
  {
    if |gs| == 0 then [] else [Group(gs[0].key.GetOr(UnknownLabel), gs[0].count)] + Labelled(gs[1..])
  }

  /** Number of companies whose status id is NULL or names no status row. */
  function UnknownCount(cs: seq<Company>, statuses: seq<StatusRow>): (n: nat)
    ensures n <= |cs|
  {
    if |cs| == 0 then 0
    else UnknownCount(cs[..|cs| - 1], statuses) + (if UnknownStatus(cs[|cs| - 1], statuses) then 1 else 0)
  }

  /** The NULL key occurs once per company with an unknown status. */
  lemma {:induction false} UnknownKeys(cs: seq<Company>, statuses: seq<StatusRow>)
    ensures Occurrences(StatusKeys(cs, statuses), None) == UnknownCount(cs, statuses)
  {
    if |cs| > 0 {
      var keys := StatusKeys(cs, statuses);
      var front := cs[..|cs| - 1];
      UnknownKeys(front, statuses);
      assert keys[..|keys| - 1] == StatusKeys(front, statuses);
      StatusNameNull(cs[|cs| - 1], statuses);
    }
  }

  /** `status_distribution`: one group per joined status name plus one
      'Unknown' group for the NULL or dangling ids, counting every company once;
      the 'Unknown' group holds exactly the companies of unknown status. */
  function StatusDistribution(cs: seq<Company>, statuses: seq<StatusRow>): (r: seq<Group<string>>)
    ensures Total(r) == |cs|
    ensures forall i :: 0 <= i < |r| ==> r[i].count > 0
    ensures UnknownCount(cs, statuses) > 0 ==>
      exists i :: 0 <= i < |r| && r[i] == Group(UnknownLabel, UnknownCount(cs, statuses))
    ensures forall k :: 0 <= k < |cs| && StatusName(cs[k], statuses).Some? ==>
      HasLabel(r, StatusName(cs[k], statuses).value)
    ensures forall i :: 0 <= i < |r| ==> Explained(r[i], cs, statuses)
    ensures forall i :: 0 <= i < |r| && r[i].key != UnknownLabel ==>
      r[i].count == Occurrences(StatusKeys(cs, statuses), Some(r[i].key))
  {
    var keys := StatusKeys(cs, statuses);
    var gs := GroupCount(keys);
    UnknownGroup(cs, statuses);
    NamedGroups(cs, statuses);
    GroupOrigins(cs, statuses);
    Labelled(gs)
  }

  lemma UnknownGroup(cs: seq<Company>, statuses: seq<StatusRow>)
    ensures var r := Labelled(GroupCount(StatusKeys(cs, statuses)));
      UnknownCount(cs, statuses) > 0 ==>
        exists i :: 0 <= i < |r| && r[i] == Group(UnknownLabel, UnknownCount(cs, statuses))
  {
    var keys := StatusKeys(cs, statuses);
    UnknownKeys(cs, statuses);
    OccurrencesPositive(keys, None);
    if UnknownCount(cs, statuses) > 0 {
      var i := GroupOf(keys, None);
      assert Labelled(GroupCount(keys))[i] == Group(UnknownLabel, UnknownCount(cs, statuses));
    }
  }

  lemma NamedGroups(cs: seq<Company>, statuses: seq<StatusRow>)
    ensures forall k :: 0 <= k < |cs| && StatusName(cs[k], statuses).Some? ==>
      HasLabel(Labelled(GroupCount(StatusKeys(cs, statuses))), StatusName(cs[k], statuses).value)
  {
    var keys := StatusKeys(cs, statuses);
    LabelsCover(keys);
    forall k | 0 <= k < |cs| && StatusName(cs[k], statuses).Some?
      ensures HasLabel(Labelled(GroupCount(keys)), StatusName(cs[k], statuses).value)
    {
      assert keys[k] in keys;
    }
  }

  /** Every status name among the keys labels a group. */
  lemma LabelsCover(keys: seq<Option<string>>)
    ensures forall name :: Some(name) in keys ==> HasLabel(Labelled(GroupCount(keys)), name)
  {
    forall name | Some(name) in keys
      ensures HasLabel(Labelled(GroupCount(keys)), name)
    {
      var i := GroupOf(keys, Some(name));
      assert Labelled(GroupCount(keys))[i].key == name;
    }
  }

  /** A group is the 'Unknown' one, counting the companies of unknown status,
      or is labelled by some company's status name and counts the companies
      joined to that name. */
  predicate Explained(g: Group<string>, cs: seq<Company>, statuses: seq<StatusRow>) {
    (g.key == UnknownLabel && g.count == UnknownCount(cs, statuses) > 0)
    || (&& g.count == Occurrences(StatusKeys(cs, statuses), Some(g.key))
        && exists k :: 0 <= k < |cs| && StatusName(cs[k], statuses) == Some(g.key))
  }

  lemma GroupOrigins(cs: seq<Company>, statuses: seq<StatusRow>)
    ensures forall i :: 0 <= i < |Labelled(GroupCount(StatusKeys(cs, statuses)))| ==>
      Explained(Labelled(GroupCount(StatusKeys(cs, statuses)))[i], cs, statuses)
  {
    var keys := StatusKeys(cs, statuses);
    var gs := GroupCount(keys);
    var r := Labelled(gs);
    UnknownKeys(cs, statuses);
    OccurrencesPositive(keys, None);
    forall i | 0 <= i < |r| ensures Explained(r[i], cs, statuses) {
      assert HasKey(gs, gs[i].key);
      var k :| 0 <= k < |keys| && keys[k] == gs[i].key;
      if gs[i].key.Some? {
        assert StatusName(cs[k], statuses) == Some(r[i].key);
      }
    }
  }

  // ---------------------------------------------------------------------------
  // Yield distribution

  /** The yield-range labels, indexed by their rank in the ORDER BY. */
  const YieldLabels: seq<string> := ["No Yield", "0-2%", "2-4%", "4-6%", "6-8%", "8%+"]

  /** Upper bound (in hundredths of a percent) of bucket `k` for 1 <= k <= 4. */
  function BucketTop(k: nat): int {
    200 * k
  }

  /** Bucket `k` of the yield ranges, stated as intervals: 0 holds NULL and
      zero; 1 holds everything up to 2% (negative yields included); 2..4 the
      half-open intervals (2(k-1)%, 2k%]; 5 everything above 8%. */
  predicate InBucket(y: Option<int>, k: nat) {
    if k == 0 then y.None? || y.value == 0
    else
      && k <= 5
      && y.Some? && y.value != 0
      && (k == 1 || y.value > BucketTop(k - 1))
      && (k == 5 || y.value <= BucketTop(k))
  }

  /** `CASE WHEN yield IS NULL OR yield = 0 THEN … WHEN yield <= 2 … ELSE '8%+' END`:
      the rank of the first branch that matches. */
  function YieldRank(y: Option<int>): (k: nat)
    ensures k < |YieldLabels|
  {
    if y.None? || y.value == 0 then 0
    else if y.value <= 200 then 1
    else if y.value <= 400 then 2
    else if y.value <= 600 then 3
    else if y.value <= 800 then 4
    else 5
  }

  /** Every yield falls in exactly one bucket, the one its CASE picks. */
  lemma YieldRankBucket(y: Option<int>, k: nat)
    ensures InBucket(y, k) <==> YieldRank(y) == k
  {
  }

  /** For non-zero yields the bucket never decreases as the yield grows. */
  lemma YieldRankMonotone(a: int, b: int)
    requires a != 0 && b != 0 && a <= b
    ensures 1 <= YieldRank(Some(a)) <= YieldRank(Some(b))
  {
  }

  /** The yield_range label of a company. */
  function YieldRange(y: Option<int>): string {
    YieldLabels[YieldRank(y)]
  }

  /** `ORDER BY CASE yield_range WHEN 'No Yield' THEN 0 … WHEN '8%+' THEN 5 END`;
      any other text gets NULL. */
  function LabelRank(name: string): Option<nat> {
    if name == "No Yield" then Some(0)
    else if name == "0-2%" then Some(1)
    else if name == "2-4%" then Some(2)
    else if name == "4-6%" then Some(3)
    else if name == "6-8%" then Some(4)
    else if name == "8%+" then Some(5)
    else None
  }

  /** The ORDER BY CASE gives each label back its own rank. */
  lemma LabelRankInverse(k: nat)
    requires k < |YieldLabels|
    ensures LabelRank(YieldLabels[k]) == Some(k)
  {
  }

  /** The sort key of a yield-range group; NULL sorts first. */
  function RangeKey(g: Group<string>): int {
    match LabelRank(g.key)
    case None => -1
    case Some(k) => k
  }

  predicate RangeOrder(a: Group<string>, b: Group<string>) {
    RangeKey(a) <= RangeKey(b)
  }

  lemma RangeOrderPreorder()
    ensures TotalPreorder(RangeOrder)
  {
  }

  /** The yield_range column, one per company in table order. */
  function YieldRanges(cs: seq<Company>): (r: seq<string>)
    ensures |r| == |cs|
    ensures forall i :: 0 <= i < |cs| ==> r[i] == YieldRange(cs[i].yieldHundredths)
  {
    if |cs| == 0 then [] else [YieldRange(cs[0].yieldHundredths)] + YieldRanges(cs[1..])
  }

  /** `yield_distribution`: one group per yield range in use, in rank order,
      counting every company exactly once. */
  function YieldDistribution(cs: seq<Company>): (r: seq<Group<string>>)
    ensures Total(r) == |cs|
    ensures DistinctKeys(r)
    ensures forall i :: 0 <= i < |r| ==> r[i].key in YieldLabels && r[i].count > 0
    ensures forall i :: 0 <= i < |r| ==> r[i].count == Occurrences(YieldRanges(cs), r[i].key)
    ensures forall k :: 0 <= k < |YieldLabels| ==> (HasKey(r, YieldLabels[k]) <==> BucketUsed(cs, k))
    ensures forall i, j :: 0 <= i < j < |r| ==> RangeKey(r[i]) < RangeKey(r[j])
  {
    var ranges := YieldRanges(cs);
    var gs := GroupCount(ranges);
    RangeOrderPreorder();
    var r := Sort(RangeOrder, gs);
    TotalSort(RangeOrder, gs);
    GroupsPermutation(gs, r);
    assert forall x :: HasKey(r, x) <==> x in ranges;
    YieldGroupsLabelled(cs, r);
    YieldGroupsPresent(cs, r);
    YieldGroupsStrict(r);
    r
  }

  /** Every group of the chart is one of the six labels and counts its rows. */
  lemma YieldGroupsLabelled(cs: seq<Company>, r: seq<Group<string>>)
    requires forall i :: 0 <= i < |r| ==> r[i] in GroupCount(YieldRanges(cs))
    ensures forall i :: 0 <= i < |r| ==> r[i].key in YieldLabels && r[i].count > 0
    ensures forall i :: 0 <= i < |r| ==> r[i].count == Occurrences(YieldRanges(cs), r[i].key)
  {
    var ranges := YieldRanges(cs);
    var gs := GroupCount(ranges);
    forall i | 0 <= i < |r|
      ensures r[i].key in YieldLabels && r[i].count > 0 && r[i].count == Occurrences(ranges, r[i].key)
    {
      assert r[i] in gs;
      var j :| 0 <= j < |gs| && gs[j] == r[i];
      assert HasKey(gs, gs[j].key);
      var k :| 0 <= k < |ranges| && ranges[k] == gs[j].key;
      assert ranges[k] == YieldLabels[YieldRank(cs[k].yieldHundredths)];
    }
  }

  /** Some company falls in yield bucket `k`. */
  predicate BucketUsed(cs: seq<Company>, k: nat) {
    exists i :: 0 <= i < |cs| && YieldRank(cs[i].yieldHundredths) == k
  }

  /** A label is charted exactly when some company falls in its bucket. */
  lemma YieldGroupsPresent(cs: seq<Company>, r: seq<Group<string>>)
    requires forall x :: HasKey(r, x) <==> x in YieldRanges(cs)
    ensures forall k :: 0 <= k < |YieldLabels| ==> (HasKey(r, YieldLabels[k]) <==> BucketUsed(cs, k))
  {
    forall k | 0 <= k < |YieldLabels| ensures HasKey(r, YieldLabels[k]) <==> BucketUsed(cs, k) {
      YieldLabelUsed(cs, k);
    }
  }

  /** A label occurs in the yield_range column exactly when some company falls in its bucket. */
  lemma YieldLabelUsed(cs: seq<Company>, k: nat)
    requires k < |YieldLabels|
    ensures YieldLabels[k] in YieldRanges(cs) <==> BucketUsed(cs, k)
  {
    var ranges := YieldRanges(cs);
    if YieldLabels[k] in ranges {
      var i :| 0 <= i < |ranges| && ranges[i] == YieldLabels[k];
      LabelRankInverse(k);
      LabelRankInverse(YieldRank(cs[i].yieldHundredths));
    }
    if BucketUsed(cs, k) {
      var i :| 0 <= i < |cs| && YieldRank(cs[i].yieldHundredths) == k;
      assert ranges[i] == YieldLabels[k];
    }
  }

  /** Groups with distinct labels sorted by rank are in strictly increasing rank. */
  lemma YieldGroupsStrict(r: seq<Group<string>>)
    requires SortedBy(RangeOrder, r) && DistinctKeys(r)
    requires forall i :: 0 <= i < |r| ==> r[i].key in YieldLabels
    ensures forall i, j :: 0 <= i < j < |r| ==> RangeKey(r[i]) < RangeKey(r[j])
  {
    forall i, j | 0 <= i < j < |r| ensures RangeKey(r[i]) < RangeKey(r[j]) {
      var a :| 0 <= a < |YieldLabels| && YieldLabels[a] == r[i].key;
      var b :| 0 <= b < |YieldLabels| && YieldLabels[b] == r[j].key;
      LabelRankInverse(a);
      LabelRankInverse(b);
    }
  }
}
