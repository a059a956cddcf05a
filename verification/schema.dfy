/** The tables the routes read: `new_companies` and its lookup tables, and the
    LEFT JOIN that attaches a lookup row's name to a company. */
module Schema {
  import opened Common

  /** One row of `new_companies`. Yield is a decimal percentage held in
      hundredths (`yield = 2.50` is 250); `created` is seconds since the epoch. */
  datatype Company = Company(
    id: int,                        // new_company_id, the primary key
    name: string,                   // company_name
    ticker: Option<string>,
    isin: Option<string>,
    countryName: Option<string>,    // free-text country label
    countryId: Option<int>,         // foreign key to country_info
    statusId: Option<int>,          // new_companies_status_id; NULL means pending
    brokerId: Option<int>,          // foreign key to broker_id of a `brokers` table
    strategyGroupId: Option<int>,   // foreign key to portfolio_strategy_groups
    yieldHundredths: Option<int>,
    inspiration: Option<string>,
    comments: Option<string>,
    borsdataAvailable: Option<int>,
    created: Option<int>)

  /** `new_companies_status` (1 active, 2 blocked, 3 inactive). */
  datatype StatusRow = StatusRow(id: int, status: string)

  /** `country_info`. */
  datatype CountryInfo = CountryInfo(id: int, countryName: string)

  /** A row of `brokers`. Both stores hold a `brokers` table of this shape. */
  datatype Broker = Broker(brokerId: int, brokerName: string)

  /** `portfolio_strategy_groups`. */
  datatype StrategyGroup = StrategyGroup(id: int, name: string)

  /** The tables of the portfolio store, together with the foundation store's
      `brokers` that the cross-store queries join. The unqualified `brokers`
      of the lookup by id is the portfolio store's own table. */
  datatype Store = Store(
    companies: seq<Company>,
    statuses: seq<StatusRow>,
    countries: seq<CountryInfo>,
    brokers: seq<Broker>,               // psw_portfolio's brokers
    groups: seq<StrategyGroup>,
    foundationBrokers: seq<Broker>)     // psw_foundation.brokers

  /** `new_company_id` is a primary key. */
  predicate UniqueIds(cs: seq<Company>) {
    forall i, j :: 0 <= i < j < |cs| ==> cs[i].id != cs[j].id
  }

  /** `LEFT JOIN rows ON fk = rows.id`, projecting the name column: NULL when the
      foreign key is NULL or matches no row. Lookup tables are keyed by their id,
      so at most one row matches; the first match is taken. */
  function LeftJoinName<R>(fk: Option<int>, rows: seq<R>, id: R -> int, name: R -> string): (r: Option<string>)
    ensures r.None? <==> fk.None? || forall i :: 0 <= i < |rows| ==> id(rows[i]) != fk.value
    ensures r.Some? ==> exists i :: 0 <= i < |rows| && id(rows[i]) == fk.value && name(rows[i]) == r.value
  {
    if fk.None? || |rows| == 0 then None
    else if id(rows[0]) == fk.value then Some(name(rows[0]))
    else
      var r := LeftJoinName(fk, rows[1..], id, name);
      assert forall i :: 1 <= i < |rows| ==> rows[i] == rows[1..][i - 1];
      assert r.Some? ==> exists i :: 0 <= i < |rows[1..]| && id(rows[1..][i]) == fk.value && name(rows[1..][i]) == r.value;
      r
  }

  /** `ncs.status` of `LEFT JOIN new_companies_status ncs ON nc.new_companies_status_id = ncs.id`. */
  function StatusName(c: Company, statuses: seq<StatusRow>): Option<string> {
    LeftJoinName(c.statusId, statuses, (s: StatusRow) => s.id, (s: StatusRow) => s.status)
  }

  /** `ci.country_name` of `LEFT JOIN country_info ci ON nc.country_id = ci.id`. */
  function CountryFullName(c: Company, countries: seq<CountryInfo>): Option<string> {
    LeftJoinName(c.countryId, countries, (ci: CountryInfo) => ci.id, (ci: CountryInfo) => ci.countryName)
  }

  /** `b.broker_name` of `LEFT JOIN brokers b ON nc.broker_id = b.broker_id`. */
  function BrokerName(c: Company, brokers: seq<Broker>): Option<string> {
    LeftJoinName(c.brokerId, brokers, (b: Broker) => b.brokerId, (b: Broker) => b.brokerName)
  }

  /** `psg.strategy_group_name` of the strategy-group LEFT JOIN. */
  function StrategyGroupName(c: Company, groups: seq<StrategyGroup>): Option<string> {
    LeftJoinName(c.strategyGroupId, groups, (g: StrategyGroup) => g.id, (g: StrategyGroup) => g.name)
  }

  /** A status id that is NULL or names no status row. */
  predicate UnknownStatus(c: Company, statuses: seq<StatusRow>) {
    c.statusId.None? || forall i :: 0 <= i < |statuses| ==> statuses[i].id != c.statusId.value
  }

  /** The joined status is NULL exactly for a NULL or dangling status id. */
  lemma StatusNameNull(c: Company, statuses: seq<StatusRow>)
    ensures StatusName(c, statuses).None? <==> UnknownStatus(c, statuses)
  {
  }
}
