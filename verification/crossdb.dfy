/** The cross-store queries: portfolio companies LEFT JOINed to the brokers of
    the foundation store, the pending and unfiltered listings, and the broker
    and country filter options. */
module CrossStore {
  import opened Common
  import opened Sorting
  import opened Schema

  const PendingLimit := 5
  const AllLimit := 10

  /** One row of the broker listings. */
  datatype BrokerRow = BrokerRow(
    id: int,                     // nc.new_company_id
    name: string,                // nc.company
    location: Option<string>,    // nc.country_name
    brokerId: Option<int>,
    brokerName: Option<string>,  // b.broker_name
    status: Option<string>)      // ncs.status

  function BrokerRowOf(c: Company, store: Store): BrokerRow {
    BrokerRow(c.id, c.name, c.countryName, c.brokerId, BrokerName(c, store.foundationBrokers), StatusName(c, store.statuses))
  }

  /** The cross-store rows name brokers from psw_foundation.brokers only: the
      portfolio store's own `brokers` table plays no part. */
  lemma CrossStoreBrokers(c: Company, store: Store, portfolioBrokers: seq<Broker>)
    ensures BrokerRowOf(c, store.(brokers := portfolioBrokers)) == BrokerRowOf(c, store)
    ensures BrokerRowOf(c, store).brokerName == BrokerName(c, store.foundationBrokers)
  {
  }

  /** `FROM psw_portfolio.new_companies nc LEFT JOIN psw_foundation.brokers b …
      LEFT JOIN psw_portfolio.new_companies_status ncs …`:
      one row per company, none dropped, and the broker name is NULL exactly
      when the broker id is NULL or names no broker. */
  function JoinBrokers(cs: seq<Company>, store: Store): (r: seq<BrokerRow>)
    ensures |r| == |cs|
    ensures forall i :: 0 <= i < |cs| ==> r[i].id == cs[i].id && r[i].brokerId == cs[i].brokerId
    ensures forall i :: 0 <= i < |cs| ==>
      (r[i].brokerName.None? <==>
        cs[i].brokerId.None? || forall j :: 0 <= j < |store.foundationBrokers| ==> store.foundationBrokers[j].brokerId != cs[i].brokerId.value)
    ensures forall i :: 0 <= i < |cs| ==> r[i] == BrokerRowOf(cs[i], store)
  {
    if |cs| == 0 then [] else [BrokerRowOf(cs[0], store)] + JoinBrokers(cs[1..], store)
  }

  /** `nc.new_companies_status_id IS NULL`. */
  predicate Pending(c: Company) {
    c.statusId.None?
  }

  /** The companies whose status id is NULL, in table order, each as often as
      the table holds it. */
  function PendingCompanies(cs: seq<Company>): (r: seq<Company>)
    ensures r == Filter(Pending, cs)
    ensures |r| <= |cs|
    ensures forall c :: c in r <==> c in cs && c.statusId.None?
  {
    if |cs| == 0 then []
    else (if cs[0].statusId.None? then [cs[0]] else []) + PendingCompanies(cs[1..])
  }

  /** `WHERE nc.new_companies_status_id IS NULL LIMIT 5`: at most five pending
      companies, each with a NULL joined status. */
  function PendingWithBrokers(cs: seq<Company>, store: Store): (r: seq<BrokerRow>)
    ensures |r| == if |PendingCompanies(cs)| < PendingLimit then |PendingCompanies(cs)| else PendingLimit
    ensures forall i :: 0 <= i < |r| ==> r[i] == BrokerRowOf(PendingCompanies(cs)[i], store)
    ensures forall i :: 0 <= i < |r| ==> r[i].status.None?
    ensures forall i :: 0 <= i < |r| ==> exists k :: 0 <= k < |cs| && cs[k].statusId.None? && cs[k].id == r[i].id
  {
    var pending := PendingCompanies(cs);
    var r := Take(JoinBrokers(pending, store), PendingLimit);
    assert forall i :: 0 <= i < |r| ==> pending[i] in pending;
    r
  }

  /** The unfiltered listing: the first ten joined rows, whatever their status. */
  function AllWithBrokers(cs: seq<Company>, store: Store): (r: seq<BrokerRow>)
    ensures |r| == if |cs| < AllLimit then |cs| else AllLimit
    ensures forall i :: 0 <= i < |r| ==> r[i] == BrokerRowOf(cs[i], store)
  {
    Take(JoinBrokers(cs, store), AllLimit)
  }

  // ---------------------------------------------------------------------------
  // Filter options

  /** An entry of a filter drop-down. */
  datatype BrokerOption = BrokerOption(id: int, name: string)

  function OptionOf(b: Broker): BrokerOption {
    BrokerOption(b.brokerId, b.brokerName)
  }

  /** Some company names broker `b`. */
  predicate Referenced(b: Broker, cs: seq<Company>) {
    exists k :: 0 <= k < |cs| && cs[k].brokerId == Some(b.brokerId)
  }

  /** The inner-join rows of one broker: one per company naming it. */
  function MatchesOf(b: Broker, cs: seq<Company>): (r: seq<BrokerOption>)
    ensures forall o :: o in r <==> o == OptionOf(b) && Referenced(b, cs)
  {
    if |cs| == 0 then []
    else
      var rest := MatchesOf(b, cs[1..]);
      assert Referenced(b, cs[1..]) ==> Referenced(b, cs) by {
        if Referenced(b, cs[1..]) {
          var k :| 0 <= k < |cs[1..]| && cs[1..][k].brokerId == Some(b.brokerId);
          assert cs[k + 1].brokerId == Some(b.brokerId);
        }
      }
      assert Referenced(b, cs) && cs[0].brokerId != Some(b.brokerId) ==> Referenced(b, cs[1..]) by {
        if Referenced(b, cs) && cs[0].brokerId != Some(b.brokerId) {
          var k :| 0 <= k < |cs| && cs[k].brokerId == Some(b.brokerId);
          assert cs[1..][k - 1].brokerId == Some(b.brokerId);
        }
      }
      (if cs[0].brokerId == Some(b.brokerId) then [OptionOf(b)] else []) + rest
  }

  /** `FROM psw_foundation.brokers b INNER JOIN psw_portfolio.new_companies nc
      ON b.broker_id = nc.broker_id WHERE nc.broker_id IS NOT NULL`, projected
      to (id, name); `brokers` is the foundation store's table. */
  function InnerJoin(brokers: seq<Broker>, cs: seq<Company>): (r: seq<BrokerOption>)
    ensures forall o :: o in r <==> exists j :: 0 <= j < |brokers| && o == OptionOf(brokers[j]) && Referenced(brokers[j], cs)
  {
    if |brokers| == 0 then []
    else
      var rest := InnerJoin(brokers[1..], cs);
      assert forall j :: 1 <= j < |brokers| ==> brokers[j] == brokers[1..][j - 1];
      assert forall o :: o in rest ==> exists j :: 0 <= j < |brokers| && o == OptionOf(brokers[j]) && Referenced(brokers[j], cs) by {
        forall o | o in rest
          ensures exists j :: 0 <= j < |brokers| && o == OptionOf(brokers[j]) && Referenced(brokers[j], cs)
        {
          var j :| 0 <= j < |brokers[1..]| && o == OptionOf(brokers[1..][j]) && Referenced(brokers[1..][j], cs);
          assert brokers[j + 1] == brokers[1..][j];
        }
      }
      MatchesOf(brokers[0], cs) + rest
  }

  /** ORDER BY b.broker_name. */
  predicate NameLe(a: BrokerOption, b: BrokerOption) {
    LexLe(a.name, b.name)
  }

  lemma NameLePreorder()
    ensures TotalPreorder(NameLe)
  {
    forall a: BrokerOption, b: BrokerOption ensures NameLe(a, b) || NameLe(b, a) {
      LexLeTotal(a.name, b.name);
    }
    forall a: BrokerOption, b: BrokerOption, c: BrokerOption | NameLe(a, b) && NameLe(b, c)
      ensures NameLe(a, c)
    {
      LexLeTransitive(a.name, b.name, c.name);
    }
  }

  /** `SELECT DISTINCT b.broker_id, b.broker_name … ORDER BY b.broker_name`: each
      broker some company names, once, in name order. */
  function BrokerOptions(brokers: seq<Broker>, cs: seq<Company>): (r: seq<BrokerOption>)
    ensures Distinct(r)
    ensures SortedBy(NameLe, r)
    ensures forall o :: o in r <==> exists j :: 0 <= j < |brokers| && o == OptionOf(brokers[j]) && Referenced(brokers[j], cs)
  {
    var d := Dedup(InnerJoin(brokers, cs));
    NameLePreorder();
    var r := Sort(NameLe, d);
    SortMembers(NameLe, d);
    DistinctPermutation(d, r);
    r
  }

  /** An entry of the country drop-down: the label serves as both id and name. */
  datatype CountryOption = CountryOption(id: string, name: string)

  /** `WHERE nc.country_name IS NOT NULL AND nc.country_name != ''`. */
  function CountryLabels(cs: seq<Company>): (r: seq<string>)
    ensures forall x :: x in r <==> x != "" && exists k :: 0 <= k < |cs| && cs[k].countryName == Some(x)
  {
    if |cs| == 0 then []
    else
      var rest := CountryLabels(cs[1..]);
      assert forall k :: 1 <= k < |cs| ==> cs[k] == cs[1..][k - 1];
      (if cs[0].countryName.Some? && cs[0].countryName.value != "" then [cs[0].countryName.value] else []) + rest
  }

  function AsOptions(names: seq<string>): (r: seq<CountryOption>)
    ensures |r| == |names|
    ensures forall i :: 0 <= i < |names| ==> r[i] == CountryOption(names[i], names[i])
  {
    if |names| == 0 then [] else [CountryOption(names[0], names[0])] + AsOptions(names[1..])
  }

  /** The distinct non-empty labels, in text order. */
  function SortedLabels(cs: seq<Company>): (r: seq<string>)
    ensures forall i, j :: 0 <= i < j < |r| ==> LexLe(r[i], r[j]) && !LexLe(r[j], r[i])
    ensures forall x :: x in r <==> x != "" && exists k :: 0 <= k < |cs| && cs[k].countryName == Some(x)
  {
    var d := Dedup(CountryLabels(cs));
    LexLePreorder();
    var r := Sort(LexLe, d);
    SortMembers(LexLe, d);
    DistinctPermutation(d, r);
    SortedDistinctStrict(r);
    r
  }

  /** `SELECT DISTINCT country_name as id, country_name as name … ORDER BY
      country_name`: every non-empty label once, strictly increasing, with id
      equal to name. */
  function CountryOptions(cs: seq<Company>): (r: seq<CountryOption>)
    ensures forall i :: 0 <= i < |r| ==> r[i].id == r[i].name && r[i].name != ""
    ensures forall i, j :: 0 <= i < j < |r| ==> LexLe(r[i].name, r[j].name) && !LexLe(r[j].name, r[i].name)
    ensures forall x :: (exists i :: 0 <= i < |r| && r[i].name == x) <==>
      x != "" && exists k :: 0 <= k < |cs| && cs[k].countryName == Some(x)
  {
    var labels := SortedLabels(cs);
    var r := AsOptions(labels);
    assert forall i :: 0 <= i < |labels| ==> labels[i] in labels;
    assert forall x :: x in labels ==> exists i :: 0 <= i < |r| && r[i].name == x;
    r
  }
}
