/** The company routes: the filtered listing `GET /` (validation, clause and
    parameter composition, execution), the lookup `GET /:id`, and the counts
    of `GET /stats/summary`. */
module Companies {
  import opened Common
  import opened Sorting
  import opened Patterns
  import opened Schema
  import opened Aggregates
  import opened Grouping
  import opened Statements
  import opened Queries

  // ---------------------------------------------------------------------------
  // Request validation

  /** The optional query-string parameters of `GET /`, as integers and text. */
  datatype ListRequest = ListRequest(
    status: Option<int>,
    country: Option<string>,
    limit: Option<int>,
    offset: Option<int>)

  /** One entry of the 400 response's `errors` array. */
  datatype Violation = BadStatus | BadCountry | BadLimit | BadOffset

  const DefaultLimit := 20
  const DefaultOffset := 0
  const MaxLimit := 100
  const MaxCountryLength := 100

  /** The four validators of the route, each passing when its parameter is absent. */
  predicate StatusOk(req: ListRequest) {
    req.status.None? || 1 <= req.status.value <= 3
  }
  predicate CountryOk(req: ListRequest) {
    req.country.None? || 1 <= |req.country.value| <= MaxCountryLength
  }
  predicate LimitOk(req: ListRequest) {
    req.limit.None? || 1 <= req.limit.value <= MaxLimit
  }
  predicate OffsetOk(req: ListRequest) {
    req.offset.None? || req.offset.value >= 0
  }

  /** The validator of `v`'s parameter rejects the request. */
  predicate Fails(req: ListRequest, v: Violation) {
    match v
    case BadStatus => !StatusOk(req)
    case BadCountry => !CountryOk(req)
    case BadLimit => !LimitOk(req)
    case BadOffset => !OffsetOk(req)
  }

  /** The validators of the route, in declaration order. */
  const Validators: seq<Violation> := [BadStatus, BadCountry, BadLimit, BadOffset]

  /** Errors in strictly increasing validator order. */
  predicate Ranked(errs: seq<Violation>) {
    forall i, j :: 0 <= i < j < |errs| ==> Rank(errs[i]) < Rank(errs[j])
  }

  /** Runs the validators `vs` in order, collecting the errors of those that fail. */
  function Validate(req: ListRequest, vs: seq<Violation>): (errs: seq<Violation>)
    requires Ranked(vs)
    ensures forall v :: v in errs <==> v in vs && Fails(req, v)
    ensures Ranked(errs)
  {
    if |vs| == 0 then []
    else
      var rest := Validate(req, vs[1..]);
      assert forall i :: 0 <= i < |rest| ==> rest[i] in vs[1..];
      assert forall k :: 0 <= k < |vs[1..]| ==> Rank(vs[0]) < Rank(vs[1..][k]);
      (if Fails(req, vs[0]) then [vs[0]] else []) + rest
  }

  /** The validation errors, in the order the validators are declared: each
      validator's error appears exactly when it fails, at most once. */
  function Violations(req: ListRequest): (errs: seq<Violation>)
    ensures forall v :: v in errs <==> Fails(req, v)
    ensures Ranked(errs) && Distinct(errs)
  {
    var errs := Validate(req, Validators);
    assert forall v :: v in Validators by {
      forall v ensures v in Validators {
        assert Validators[Rank(v)] == v;
      }
    }
    errs
  }

  /** Position of a parameter's validator in the route's validator list. */
  function Rank(v: Violation): nat {
    match v
    case BadStatus => 0
    case BadCountry => 1
    case BadLimit => 2
    case BadOffset => 3
  }

  // ---------------------------------------------------------------------------
  // Evaluation of a composed statement over the tables

  /** One row of the listing: the company and its two LEFT JOINed names. */
  datatype Listed = Listed(company: Company, companyStatus: Option<string>, countryFullName: Option<string>)

  function ListedRow(c: Company, store: Store): Listed {
    Listed(c, StatusName(c, store.statuses), CountryFullName(c, store.countries))
  }

  /** `FROM new_companies nc LEFT JOIN new_companies_status … LEFT JOIN country_info …`:
      one row per company, none dropped. */
  function JoinListing(cs: seq<Company>, store: Store): (r: seq<Listed>)
    ensures |r| == |cs|
    ensures forall i :: 0 <= i < |cs| ==> r[i] == ListedRow(cs[i], store)
  {
    if |cs| == 0 then [] else [ListedRow(cs[0], store)] + JoinListing(cs[1..], store)
  }

  predicate Holds(l: Listed, cond: Condition) {
    match cond
    case StatusEquals(id) => l.company.statusId == Some(id)
    case CountryLike(p1, p2) =>
      (l.company.countryName.Some? && Like(l.company.countryName.value, p1))
      || (l.countryFullName.Some? && Like(l.countryFullName.value, p2))
  }

  predicate HoldsAll(l: Listed, conds: seq<Condition>) {
    forall i :: 0 <= i < |conds| ==> Holds(l, conds[i])
  }

  /** The WHERE clause: the rows meeting every bound condition, in table order. */
  function Where(rows: seq<Listed>, conds: seq<Condition>): (r: seq<Listed>)
    ensures forall l :: l in r <==> l in rows && HoldsAll(l, conds)
  {
    if |rows| == 0 then []
    else (if HoldsAll(rows[0], conds) then [rows[0]] else []) + Where(rows[1..], conds)
  }

  /** ORDER BY nc.new_company_id DESC. */
  predicate IdDesc(a: Listed, b: Listed) {
    a.company.id >= b.company.id
  }

  lemma IdDescPreorder()
    ensures TotalPreorder(IdDesc)
  {
  }

  /** The rows in descending id order. */
  function SortByIdDesc(rows: seq<Listed>): (r: seq<Listed>)
    ensures SortedBy(IdDesc, r)
    ensures multiset(r) == multiset(rows)
  {
    IdDescPreorder();
    Sort(IdDesc, rows)
  }

  /** LIMIT ? OFFSET ?. */
  function Page<T>(rows: seq<T>, offset: nat, limit: nat): (r: seq<T>)
    ensures |r| == if offset >= |rows| then 0 else if |rows| - offset < limit then |rows| - offset else limit
    ensures forall i :: 0 <= i < |r| ==> offset + i < |rows| && r[i] == rows[offset + i]
  {
    Take(Skip(rows, offset), limit)
  }

  /** Runs a composed statement; None is the driver's error (values missing,
      of the wrong kind, or a negative LIMIT/OFFSET). */
  function Eval(q: Query, store: Store): Option<seq<Listed>> {
    match Bind(q)
    case None => None
    case Some(b) =>
      if b.limit < 0 || b.offset < 0 then None
      else
        Some(Page(SortByIdDesc(Where(JoinListing(store.companies, store), b.conditions)), b.offset, b.limit))
  }

  /** The listing's meaning, stated without SQL: the status id equals the
      requested one, and a non-empty requested country text occurs in the
      company's country label or in its joined full country name (an empty
      text filters nothing). */
  predicate Matches(l: Listed, status: Option<int>, country: Option<string>) {
    && (status.None? || l.company.statusId == status)
    && (!Given(country)
        || (l.company.countryName.Some? && Contains(l.company.countryName.value, country.value))
        || (l.countryFullName.Some? && Contains(l.countryFullName.value, country.value)))
  }

  /** The rows meeting the request, in table order. */
  function Selected(rows: seq<Listed>, status: Option<int>, country: Option<string>): (r: seq<Listed>)
    ensures forall l :: l in r <==> l in rows && Matches(l, status, country)
  {
    if |rows| == 0 then []
    else (if Matches(rows[0], status, country) then [rows[0]] else []) + Selected(rows[1..], status, country)
  }

  predicate NoWildcards(x: string) {
    forall i :: 0 <= i < |x| ==> !IsWildcard(x[i])
  }

  /** A row passes the bound conditions exactly when it meets the request. */
  lemma HoldsConditions(l: Listed, status: Option<int>, country: Option<string>)
    requires country.Some? ==> NoWildcards(country.value)
    ensures HoldsAll(l, Conditions(status, country)) <==> Matches(l, status, country)
  {
    var conds := Conditions(status, country);
    if Given(country) {
      var c := country.value;
      if l.company.countryName.Some? {
        LikeWrapContains(l.company.countryName.value, c);
      }
      if l.countryFullName.Some? {
        LikeWrapContains(l.countryFullName.value, c);
      }
      assert conds[|conds| - 1] == CountryLike(Wrap(c), Wrap(c));
    }
    if status.Some? {
      assert conds[0] == StatusEquals(status.value);
    }
  }

  lemma {:induction false} WhereSelected(rows: seq<Listed>, status: Option<int>, country: Option<string>)
    requires country.Some? ==> NoWildcards(country.value)
    ensures Where(rows, Conditions(status, country)) == Selected(rows, status, country)
  {
    if |rows| > 0 {
      HoldsConditions(rows[0], status, country);
      WhereSelected(rows[1..], status, country);
    }
  }

  /** The composed statement, run over the tables, returns the page of rows
      meeting the request in descending id order, for every combination of
      present and absent filters. LIKE's `%`/`_` inside the country text
      would act as wildcards, so that text is taken to have none. */
  lemma ComposeEvalSelects(status: Option<int>, country: Option<string>, limit: nat, offset: nat, store: Store)
    requires country.Some? ==> NoWildcards(country.value)
    ensures Eval(Compose(status, country, limit, offset), store)
      == Some(Page(SortByIdDesc(Selected(JoinListing(store.companies, store), status, country)), offset, limit))
  {
    WhereSelected(JoinListing(store.companies, store), status, country);
  }

  // ---------------------------------------------------------------------------
  // The GET / handler

  datatype ListResponse =
    | BadRequest(errors: seq<Violation>)
    | Listing(data: seq<Listed>, count: int, limit: int, offset: int)
    | ServerError(error: string)

  /** The response and the statements the handler sent to the store. */
  datatype Handled = Handled(response: ListResponse, executed: seq<Query>)

  /** `GET /`: a request failing validation is answered 400 with its errors and
      sends nothing to the store; otherwise exactly one composed statement runs,
      with limit 20 and offset 0 when absent, its result is the page returned,
      and `count` is the number of rows on this page (not a total). */
  function ListCompanies(req: ListRequest, store: Store): (h: Handled)
    ensures h.response.BadRequest? <==> |Violations(req)| > 0
    ensures h.response.BadRequest? ==> h.response.errors == Violations(req) && h.executed == []
    ensures !h.response.BadRequest? ==>
      h.executed == [Compose(req.status, req.country, req.limit.GetOr(DefaultLimit), req.offset.GetOr(DefaultOffset))]
    ensures h.response.Listing? ==> |h.executed| == 1 && Eval(h.executed[0], store) == Some(h.response.data)
    ensures |Violations(req)| == 0 ==> h.response.Listing?
    ensures h.response.Listing? ==>
      && h.response.limit == req.limit.GetOr(DefaultLimit)
      && h.response.offset == req.offset.GetOr(DefaultOffset)
      && h.response.count == |h.response.data| <= h.response.limit
      && forall i, j :: 0 <= i < j < |h.response.data| ==>
           h.response.data[i].company.id >= h.response.data[j].company.id
  {
    var errs := Violations(req);
    if |errs| > 0 then Handled(BadRequest(errs), [])
    else
      assert !Fails(req, BadLimit) && !Fails(req, BadOffset);
      var limit := req.limit.GetOr(DefaultLimit);
      var offset := req.offset.GetOr(DefaultOffset);
      var q := Compose(req.status, req.country, limit, offset);
      EvalPage(q, store);
      match Eval(q, store)
      case None => Handled(ServerError("Failed to fetch companies"), [q])
      case Some(rows) => Handled(Listing(rows, |rows|, limit, offset), [q])
  }

  /** Whatever statement runs, at most LIMIT rows come back, largest id first. */
  lemma EvalPage(q: Query, store: Store)
    ensures Eval(q, store).Some? ==>
      && Bind(q).Some?
      && |Eval(q, store).value| <= Bind(q).value.limit
      && forall i, j :: 0 <= i < j < |Eval(q, store).value| ==>
           Eval(q, store).value[i].company.id >= Eval(q, store).value[j].company.id
  {
    if Eval(q, store).Some? {
      var b := Bind(q).value;
      var sorted := SortByIdDesc(Where(JoinListing(store.companies, store), b.conditions));
      var rows := Page(sorted, b.offset, b.limit);
      assert Eval(q, store).value == rows;
      forall i, j | 0 <= i < j < |rows| ensures rows[i].company.id >= rows[j].company.id {
        assert rows[i] == sorted[b.offset + i] && rows[j] == sorted[b.offset + j];
        assert IdDesc(sorted[b.offset + i], sorted[b.offset + j]);
      }
    }
  }

  /** The page `GET /` answers with is the requested window of the companies
      meeting the request, largest id first (country text without LIKE
      wildcards). */
  lemma ListingSelects(req: ListRequest, store: Store)
    requires req.country.Some? ==> NoWildcards(req.country.value)
    ensures var h := ListCompanies(req, store);
      h.response.Listing? ==>
        h.response.data == Page(SortByIdDesc(Selected(JoinListing(store.companies, store), req.status, req.country)),
                                req.offset.GetOr(DefaultOffset), req.limit.GetOr(DefaultLimit))
  {
    var h := ListCompanies(req, store);
    if h.response.Listing? {
      assert !Fails(req, BadLimit) && !Fails(req, BadOffset);
      ComposeEvalSelects(req.status, req.country, req.limit.GetOr(DefaultLimit), req.offset.GetOr(DefaultOffset), store);
    }
  }

  /** With unique ids the page is in strictly descending id order. */
  lemma ListingStrictlyDescending(req: ListRequest, store: Store)
    requires UniqueIds(store.companies)
    ensures var h := ListCompanies(req, store);
      h.response.Listing? ==>
        forall i, j :: 0 <= i < j < |h.response.data| ==>
          h.response.data[i].company.id > h.response.data[j].company.id
  {
    var h := ListCompanies(req, store);
    if h.response.Listing? {
      var joined := JoinListing(store.companies, store);
      var filtered := Where(joined, Conditions(req.status, req.country));
      JoinIdsUnique(store.companies, store);
      WhereUnique(joined, Conditions(req.status, req.country));
      SortStrictlyDescending(filtered);
      PageStrictlyDescending(SortByIdDesc(filtered), req.offset.GetOr(DefaultOffset), req.limit.GetOr(DefaultLimit));
    }
  }

  /** Rows in strictly descending id order. */
  predicate StrictlyDescending(rows: seq<Listed>) {
    forall i, j :: 0 <= i < j < |rows| ==> rows[i].company.id > rows[j].company.id
  }

  /** Sorting rows with unique ids gives strictly descending ids. */
  lemma SortStrictlyDescending(rows: seq<Listed>)
    requires UniqueListedIds(rows) && Distinct(rows)
    ensures StrictlyDescending(SortByIdDesc(rows))
  {
    var sorted := SortByIdDesc(rows);
    DistinctPermutation(rows, sorted);
    forall i, j | 0 <= i < j < |sorted| ensures sorted[i].company.id > sorted[j].company.id {
      SortedRowsDiffer(rows, sorted, i, j);
    }
  }

  /** A page of a strictly descending sequence is strictly descending. */
  lemma PageStrictlyDescending(rows: seq<Listed>, offset: nat, limit: nat)
    requires StrictlyDescending(rows)
    ensures StrictlyDescending(Page(rows, offset, limit))
  {
    var p := Page(rows, offset, limit);
    forall i, j | 0 <= i < j < |p| ensures p[i].company.id > p[j].company.id {
      assert p[i] == rows[offset + i] && p[j] == rows[offset + j];
    }
  }

  /** Distinct ids in the table give distinct ids in the join. */
  predicate UniqueListedIds(rows: seq<Listed>) {
    forall i, j :: 0 <= i < j < |rows| ==> rows[i].company.id != rows[j].company.id
  }

  lemma JoinIdsUnique(cs: seq<Company>, store: Store)
    requires UniqueIds(cs)
    ensures UniqueListedIds(JoinListing(cs, store))
  {
  }

  lemma {:induction false} WhereUnique(rows: seq<Listed>, conds: seq<Condition>)
    requires UniqueListedIds(rows)
    ensures UniqueListedIds(Where(rows, conds)) && Distinct(Where(rows, conds))
  {
    if |rows| > 0 {
      WhereUnique(rows[1..], conds);
      var rest := Where(rows[1..], conds);
      assert forall l :: l in rest ==> l in rows[1..];
      assert forall k :: 1 <= k < |rows| ==> rows[k].company.id != rows[0].company.id;
      assert forall l :: l in rows[1..] ==> l.company.id != rows[0].company.id;
    }
  }

  /** In a sorted permutation of rows with unique ids, later rows have smaller ids. */
  lemma SortedRowsDiffer(rows: seq<Listed>, sorted: seq<Listed>, i: int, j: int)
    requires UniqueListedIds(rows)
    requires multiset(sorted) == multiset(rows)
    requires Distinct(sorted)
    requires SortedBy(IdDesc, sorted)
    requires 0 <= i < j < |sorted|
    ensures sorted[i].company.id > sorted[j].company.id
  {
    assert sorted[i] in multiset(rows) && sorted[j] in multiset(rows);
    var a :| 0 <= a < |rows| && rows[a] == sorted[i];
    var b :| 0 <= b < |rows| && rows[b] == sorted[j];
    assert sorted[i] != sorted[j];
    assert a != b;
  }

  // ---------------------------------------------------------------------------
  // GET /:id

  /** `nc.*` with its four LEFT JOINed names. */
  datatype Detail = Detail(
    company: Company,
    companyStatus: Option<string>,
    countryFullName: Option<string>,
    brokerName: Option<string>,
    strategyGroupName: Option<string>)

  datatype LookupResponse = Found(data: Detail) | NotFound(error: string)

  /** `nc.*` with the four joined names. The unqualified `brokers` and
      `portfolio_strategy_groups` are the portfolio store's own tables. */
  function DetailRow(c: Company, store: Store): Detail {
    Detail(c, StatusName(c, store.statuses), CountryFullName(c, store.countries),
      BrokerName(c, store.brokers), StrategyGroupName(c, store.groups))
  }

  /** The lookup names brokers from the portfolio store's `brokers` only:
      psw_foundation.brokers plays no part. */
  lemma LookupBrokers(c: Company, store: Store, foundationBrokers: seq<Broker>)
    ensures DetailRow(c, store.(foundationBrokers := foundationBrokers)) == DetailRow(c, store)
    ensures DetailRow(c, store).brokerName == BrokerName(c, store.brokers)
  {
  }

  /** The joined rows whose id is the requested one, in table order. */
  function RowsWithId(cs: seq<Company>, id: int, store: Store): (r: seq<Detail>)
    ensures |r| == 0 <==> forall i :: 0 <= i < |cs| ==> cs[i].id != id
    ensures |r| > 0 ==> exists i :: (0 <= i < |cs| && cs[i].id == id && r[0] == DetailRow(cs[i], store)
      && forall j :: 0 <= j < i ==> cs[j].id != id)
  {
    if |cs| == 0 then []
    else
      var rest := RowsWithId(cs[1..], id, store);
      assert forall k :: 1 <= k < |cs| ==> cs[k] == cs[1..][k - 1];
      if cs[0].id == id then [DetailRow(cs[0], store)] + rest
      else
        assert |rest| > 0 ==> exists i :: (0 <= i < |cs| && cs[i].id == id && rest[0] == DetailRow(cs[i], store)
          && forall j :: 0 <= j < i ==> cs[j].id != id)
        by {
          if |rest| > 0 {
            var i :| 0 <= i < |cs[1..]| && cs[1..][i].id == id && rest[0] == DetailRow(cs[1..][i], store)
              && forall j :: 0 <= j < i ==> cs[1..][j].id != id;
            assert cs[i + 1].id == id && forall j :: 0 <= j < i + 1 ==> cs[j].id != id;
          }
        }
        rest
  }

  /** `GET /:id`: 404 "Company not found" exactly when no company has the id;
      otherwise the first matching row with its joined names. */
  function GetCompany(id: int, store: Store): (r: LookupResponse)
    ensures r.NotFound? <==> forall i :: 0 <= i < |store.companies| ==> store.companies[i].id != id
    ensures r.NotFound? ==> r.error == "Company not found"
    ensures r.Found? ==> exists i :: (0 <= i < |store.companies| && store.companies[i].id == id
      && r.data == DetailRow(store.companies[i], store)
      && forall j :: 0 <= j < i ==> store.companies[j].id != id)
    ensures r.Found? ==> r.data.company.id == id && r.data.company in store.companies
    ensures r.Found? ==>
      && r.data.companyStatus == StatusName(r.data.company, store.statuses)
      && r.data.brokerName == BrokerName(r.data.company, store.brokers)
  {
    var ps := ByIdParams(id);
    var rows := RowsWithId(store.companies, ps[0].n, store);
    if |rows| == 0 then NotFound("Company not found") else Found(rows[0])
  }

  /** With unique ids, the lookup returns the one company with that id. */
  lemma GetCompanyUnique(id: int, store: Store, i: int)
    requires UniqueIds(store.companies)
    requires 0 <= i < |store.companies| && store.companies[i].id == id
    ensures GetCompany(id, store) == Found(DetailRow(store.companies[i], store))
  {
    var cs := store.companies;
    var rows := RowsWithId(cs, id, store);
    var k :| 0 <= k < |cs| && cs[k].id == id && rows[0] == DetailRow(cs[k], store)
      && forall j :: 0 <= j < k ==> cs[j].id != id;
    assert k == i;
  }

  // ---------------------------------------------------------------------------
  // GET /stats/summary

  datatype StatsSummary = StatsSummary(
    totalCompanies: nat,
    activeCompanies: nat,
    inactiveCompanies: nat,
    borsdataAvailable: nat,
    byCountry: seq<Group<string>>)

  /** `/stats/summary`: the total, active (status 1), inactive (status 3) and
      Börsdata-available counts, and the per-country counts, largest first. */
  function Summary(cs: seq<Company>): (r: StatsSummary)
    ensures r.totalCompanies == |cs|
    ensures r.activeCompanies == Count(cs).active && r.inactiveCompanies == Count(cs).inactive
    ensures r.borsdataAvailable == Count(cs).borsdataAvailable
    ensures r.activeCompanies + r.inactiveCompanies <= r.totalCompanies
    ensures r.borsdataAvailable <= r.totalCompanies
    ensures forall i :: 0 <= i < |r.byCountry| ==> r.byCountry[i].count == Occurrences(NonNullCountries(cs), r.byCountry[i].key)
    ensures SortedBy(CountDesc, r.byCountry) && DistinctKeys(r.byCountry)
    ensures forall k :: HasKey(r.byCountry, k) <==> exists i :: 0 <= i < |cs| && cs[i].countryName == Some(k)
  {
    var t := Count(cs);
    StatsSummary(t.total, t.active, t.inactive, t.borsdataAvailable, CountryCounts(cs))
  }
}
